/** When redacting twice is redacting once (`redact_dokploy_env_payload` in `verification.py`). */
module RedactionTwice {
  import opened Text
  import opened EnvFormat
  import opened EnvMerge
  import opened Redaction

  /** The redaction of a tail, given whether the line before it is a marker. */
  function Tail(ps: seq<Piece>, marked: bool): string {
    if ps == [] then ""
    else
      var b := LineBody(ps[0]);
      if marked && LooksLikeEnvAssignment(b) then Hide(b) + LineEnding(ps[0]) + Tail(ps[1..], false)
      else ps[0].Whole() + Tail(ps[1..], IsMarker(b))
  }

  predicate MarkedAt(ps: seq<Piece>, i: nat)
    requires i <= |ps|
  {
    i > 0 && IsMarker(LineBody(ps[i - 1])) && !(i > 1 && Hidden(ps, i - 1))
  }

  lemma HiddenIsNoMarker(ps: seq<Piece>, i: nat)
    requires i < |ps| && Hidden(ps, i)
    ensures !IsMarker(LineBody(ps[i]))
  {
    AssignmentIsNoMarker(LineBody(ps[i]));
  }

  lemma MarkedMeans(ps: seq<Piece>, i: nat)
    requires i <= |ps|
    ensures MarkedAt(ps, i) <==> i > 0 && IsMarker(LineBody(ps[i - 1]))
  {
    if i > 1 && Hidden(ps, i - 1) { HiddenIsNoMarker(ps, i - 1); }
  }

  lemma {:induction false} TailIs(ps: seq<Piece>, i: nat)
    requires i <= |ps|
    ensures Tail(ps[i..], MarkedAt(ps, i)) == TextOf(RedactPieces(ps)[i..])
    decreases |ps| - i
  {
    hide IsMarker, LooksLikeEnvAssignment, LineBody, LineEnding, Hide;
    MarkedMeans(ps, i);
    if i < |ps| {
      var rs := RedactPieces(ps);
      MarkedMeans(ps, i + 1);
      TailIs(ps, i + 1);
      assert ps[i..][0] == ps[i] && ps[i..][1..] == ps[i + 1..];
      assert rs[i..][0] == rs[i] && rs[i..][1..] == rs[i + 1..];
      if Hidden(ps, i) {
        HiddenIsNoMarker(ps, i);
        Regroup(Hide(LineBody(ps[i])), LineEnding(ps[i]), Tail(ps[i + 1..], false));
      }
    }
  }

  lemma RedactIsTail(text: string)
    ensures Redact(text) == Tail(Pieces(text), false)
  {
    var ps := Pieces(text);
    TailIs(ps, 0);
    assert ps[0..] == ps && RedactPieces(ps)[0..] == RedactPieces(ps);
    TextIsConcat(RedactPieces(ps));
    hide Tail, RedactPieces, TextOf;
  }

  /** An empty line ended by newline or carriage return. */
  predicate EmptyLine(p: Piece) { p.body == "" && p.ending in {"\n", "\r", "\r\n"} }

  predicate PlainBreak(p: Piece) { p.ending in {"", "\n", "\r", "\r\n"} }

  /** No break is lost, except before an empty line and at the end. */
  predicate Steady(ps: seq<Piece>, marked: bool) {
    if ps == [] then true
    else if marked && LooksLikeEnvAssignment(LineBody(ps[0])) then
      (PlainBreak(ps[0]) || |ps| == 1 || EmptyLine(ps[1])) && Steady(ps[1..], false)
    else Steady(ps[1..], IsMarker(LineBody(ps[0])))
  }

  // ---- Small facts ----

  lemma TailStarts(ps: seq<Piece>, marked: bool)
    requires "\n" <= Tail(ps, marked)
    ensures ps != [] && ("\n" <= ps[0].Whole() || ps[0].Whole() == "")
  {
    if ps != [] && marked && LooksLikeEnvAssignment(LineBody(ps[0])) {
      HideIsAssignment(LineBody(ps[0]));
    }
  }

  lemma WellSplitTail(ps: seq<Piece>)
    requires WellSplit(ps) && ps != []
    ensures WellSplit(ps[1..]) && ps[0].Whole() != ""
    ensures |ps| > 1 ==>
              && IsEnding(ps[0].ending) && ps[1].Whole() != ""
              && (ps[0].ending == "\r" ==> !("\n" <= ps[1].Whole()))
  {
    hide NoBreak;
    var rest := ps[1..];
    forall i | 0 <= i < |rest| ensures rest[i] == ps[i + 1] {
    }
    forall i | 0 < i < |rest| ensures rest[i - 1].ending == "\r" ==> !("\n" <= rest[i].Whole()) {
      assert ps[i + 1 - 1].ending == "\r" ==> !("\n" <= ps[i + 1].Whole());
    }
    if |ps| > 1 { assert ps[1 - 1].ending == "\r" ==> !("\n" <= ps[1].Whole()); }
  }

  /** A redacted tail keeps the break before it apart. */
  lemma NoGlue(ps: seq<Piece>, marked: bool)
    requires WellSplit(ps) && ps != [] && ps[0].ending == "\r"
    ensures !("\n" <= Tail(ps[1..], marked))
  {
    WellSplitTail(ps);
    hide Tail, WellSplit;
    if |ps| > 1 && "\n" <= Tail(ps[1..], marked) { TailStarts(ps[1..], marked); }
  }

  /** More characters of value change neither the key nor what a hidden line becomes. */
  lemma HiddenAgain(b: string, more: string)
    requires LooksLikeEnvAssignment(b)
    ensures LooksLikeEnvAssignment(Hide(b) + more) && Hide(Hide(b) + more) == Hide(b)
    ensures Hide(b) != "" && NoBreak(Hide(b))
  {
    HideIsAssignment(b);
    var h, k := Hide(b) + more, KeyOf(b);
    IdentifierIsPlain(k);
    assert h[|k|] == '=' && forall j :: 0 <= j < |k| ==> h[j] == k[j];
    assert IndexOf(h, '=') == |k| && KeyOf(h) == k;
    assert h[0] == k[0] && LStrip(h) == h;
  }

  lemma SinglePiece(b: string)
    requires NoBreak(b) && b != ""
    ensures Pieces(b) == [Piece(b, "")]
  {
    assert BreakAt(b) == |b|;
  }

  // ---- The induction ----

  /** The first line of a redacted text, when its break is kept. */
  lemma FirstOfTail(ps: seq<Piece>, x: Piece, next: bool)
    requires WellSplit(ps) && ps != [] && IsEnding(x.ending) && x.ending == ps[0].ending && NoBreak(x.body)
    ensures Pieces(x.Whole() + Tail(ps[1..], next)) == [x] + Pieces(Tail(ps[1..], next))
  {
    if x.ending == "\r" { NoGlue(ps, next); }
    hide WellSplit, Tail;
    PieceSplits(x, Tail(ps[1..], next));
  }

  lemma TailOfCons(x: Piece, rest: seq<Piece>, marked: bool)
    ensures Tail([x] + rest, marked) ==
            var b := LineBody(x);
            if marked && LooksLikeEnvAssignment(b) then Hide(b) + LineEnding(x) + Tail(rest, false)
            else x.Whole() + Tail(rest, IsMarker(b))
  {
    assert ([x] + rest)[1..] == rest;
  }

  lemma SameStart(a: string, x: string, y: string)
    ensures a + x == a + y <==> x == y
  {
    assert (a + x)[|a|..] == x && (a + y)[|a|..] == y;
  }

  /** A hidden line that loses its break swallows the next line `q`, with `y` the rest as redacted:
      redacting again is harmless exactly when that line is empty and the rest is. */
  lemma Swallowed(b: string, q: Piece, y: string)
    requires LooksLikeEnvAssignment(b) && NoBreak(q.body) && IsEnding(q.ending) && (q.ending == "\r" ==> !("\n" <= y))
    ensures var t := Hide(b) + (q.Whole() + y);
            Tail(Pieces(t), true) == t <==> EmptyLine(q) && Redact(y) == y
  {
    hide Tail, LooksLikeEnvAssignment, Redact;
    var h := Hide(b);
    var t := h + (q.Whole() + y);
    var x := Piece(h + q.body, q.ending);
    HiddenAgain(b, q.body);
    HiddenAgain(b, q.body + q.ending);
    hide Hide;
    NoBreakAppend(h, q.body);
    assert x.Whole() == h + q.Whole() by { Regroup(h, q.body, q.ending); }
    assert t == x.Whole() + y by { Regroup(h, q.Whole(), y); }
    PieceSplits(x, y);
    TailOfCons(x, Pieces(y), true);
    BodyOfPiece(x);
    RedactIsTail(y);
    var z := Redact(y);
    if PlainBreak(x) {
      Regroup(h, q.ending, z);
      assert Tail(Pieces(t), true) == h + (q.ending + z);
      SameStart(h, q.ending + z, q.Whole() + y);
      KeptSwallow(q, z, y);
    } else {
      assert h + "" == h;
      assert Tail(Pieces(t), true) == h + z;
      SameStart(h, z, q.Whole() + y);
      LostSwallow(q, y);
    }
  }

  lemma KeptSwallow(q: Piece, z: string, y: string)
    requires NoBreak(q.body) && IsEnding(q.ending)
    ensures q.ending + z == q.Whole() + y <==> q.body == "" && z == y
  {
    if q.body == "" {
      assert q.Whole() == q.ending;
      SameStart(q.ending, z, y);
    } else {
      assert (q.ending + z)[0] == q.ending[0] && (q.Whole() + y)[0] == q.body[0];
    }
  }

  /** A redacted text does not have a line more. */
  lemma LostSwallow(q: Piece, y: string)
    requires NoBreak(q.body) && IsEnding(q.ending) && (q.ending == "\r" ==> !("\n" <= y))
    ensures Redact(y) != q.Whole() + y
  {
    hide Redact;
    PieceSplits(q, y);
    RedactKeepsLineCountExactly(y);
  }

  lemma {:induction false} TwiceExactly(ps: seq<Piece>, marked: bool)
    requires WellSplit(ps)
    ensures Tail(Pieces(Tail(ps, marked)), marked) == Tail(ps, marked) <==> Steady(ps, marked)
    decreases |ps|, 2
  {
    if ps == [] {
      assert Pieces("") == [];
    } else if marked && LooksLikeEnvAssignment(LineBody(ps[0])) {
      HiddenTwice(ps);
    } else {
      ShownTwice(ps, marked);
    }
  }

  lemma {:induction false} ShownTwice(ps: seq<Piece>, marked: bool)
    requires WellSplit(ps) && ps != [] && !(marked && LooksLikeEnvAssignment(LineBody(ps[0])))
    ensures Tail(Pieces(Tail(ps, marked)), marked) == Tail(ps, marked) <==> Steady(ps, marked)
    decreases |ps|, 0
  {
    WellSplitTail(ps);
    var p, next := ps[0], IsMarker(LineBody(ps[0]));
    var rest := Tail(ps[1..], next);
    assert NoBreak(p.body);
    if p.ending == "" {
      assert ps[1..] == [] && p.Whole() == p.body && rest == "" && Tail(ps, marked) == p.body;
      SinglePiece(p.body);
      assert Pieces(p.body) == ps;
    } else {
      assert IsEnding(p.ending);
      TwiceExactly(ps[1..], next);
      FirstOfTail(ps, p, next);
      hide WellSplit, LooksLikeEnvAssignment, IsMarker, LineBody;
      TailOfCons(p, Pieces(rest), marked);
      SameStart(p.Whole(), Tail(Pieces(rest), next), rest);
    }
  }

  lemma {:induction false} HiddenTwice(ps: seq<Piece>)
    requires WellSplit(ps) && ps != [] && LooksLikeEnvAssignment(LineBody(ps[0]))
    ensures Tail(Pieces(Tail(ps, true)), true) == Tail(ps, true) <==> Steady(ps, true)
    decreases |ps|, 1
  {
    hide LooksLikeEnvAssignment, LineBody, Tail, Steady, NoBreak, EmptyLine, IsEnding;
    EndsWell(ps);
    if |ps| == 1 && (ps[0].ending == "" || !PlainBreak(ps[0])) {
      LastHiddenTwice(ps);
    } else if PlainBreak(ps[0]) {
      KeptTwice(ps);
    } else {
      LostTwice(ps);
    }
  }

  lemma EndsWell(ps: seq<Piece>)
    requires WellSplit(ps) && ps != []
    ensures IsEnding(ps[0].ending) || (|ps| == 1 && ps[0].ending == "")
  {}

  lemma LastHiddenTwice(ps: seq<Piece>)
    requires WellSplit(ps) && |ps| == 1 && LooksLikeEnvAssignment(LineBody(ps[0]))
    requires ps[0].ending == "" || !PlainBreak(ps[0])
    ensures Tail(ps, true) == Hide(LineBody(ps[0]))
    ensures Tail(Pieces(Tail(ps, true)), true) == Tail(ps, true) && Steady(ps, true)
  {
    var h := Hide(LineBody(ps[0]));
    BodyOfPiece(ps[0]);
    HiddenAgain(LineBody(ps[0]), "");
    SinglePiece(h);
    BodyOfPiece(Piece(h, ""));
    hide LooksLikeEnvAssignment, LineBody, Hide, NoBreak, IsEnding;
    assert h + "" == h && ps[1..] == [];
    TailOfCons(Piece(h, ""), [], true);
    assert [Piece(h, "")] + [] == [Piece(h, "")];
  }

  lemma {:induction false} KeptTwice(ps: seq<Piece>)
    requires WellSplit(ps) && ps != [] && LooksLikeEnvAssignment(LineBody(ps[0]))
    requires PlainBreak(ps[0]) && IsEnding(ps[0].ending)
    ensures Tail(Pieces(Tail(ps, true)), true) == Tail(ps, true) <==> Steady(ps, true)
    decreases |ps|, 0
  {
    WellSplitTail(ps);
    var p := ps[0];
    var b := LineBody(p);
    var x := Piece(Hide(b), p.ending);
    HiddenAgain(b, "");
    assert Hide(b) + "" == Hide(b);
    BodyOfPiece(p);
    BodyOfPiece(x);
    var rest := Tail(ps[1..], false);
    TwiceExactly(ps[1..], false);
    FirstOfTail(ps, x, false);
    hide WellSplit, LooksLikeEnvAssignment, IsMarker, LineBody, LineEnding, Hide;
    TailOfCons(x, Pieces(rest), true);
    SameStart(x.Whole(), Tail(Pieces(rest), false), rest);
  }

  lemma {:induction false} LostTwice(ps: seq<Piece>)
    requires WellSplit(ps) && |ps| > 1 && LooksLikeEnvAssignment(LineBody(ps[0])) && !PlainBreak(ps[0])
    ensures Tail(Pieces(Tail(ps, true)), true) == Tail(ps, true) <==> Steady(ps, true)
    decreases |ps|, 0
  {
    var p, q := ps[0], ps[1];
    var b := LineBody(p);
    var h := Hide(b);
    var next := IsMarker(LineBody(q));
    var y := Tail(ps[2..], next);
    LostTail(ps);
    if q.ending == "" {
      LastSwallowed(b, q);
      assert q.Whole() + "" == q.body;
      assert !EmptyLine(q);
    } else {
      if q.ending == "\r" { NoGlue(ps[1..], next); }
      TwiceExactly(ps[2..], false);
      RedactIsTail(y);
      hide WellSplit, LooksLikeEnvAssignment, LineBody, LineEnding, Hide, Redact, Tail, Steady, IsMarker, PlainBreak;
      Swallowed(b, q, y);
    }
  }

  lemma LostTail(ps: seq<Piece>)
    requires WellSplit(ps) && |ps| > 1 && LooksLikeEnvAssignment(LineBody(ps[0])) && !PlainBreak(ps[0])
    ensures var b, q := LineBody(ps[0]), ps[1];
            var y := Tail(ps[2..], IsMarker(LineBody(q)));
            && Tail(ps, true) == Hide(b) + (q.Whole() + y)
            && (Steady(ps, true) <==> EmptyLine(q) && Steady(ps[2..], false))
            && (EmptyLine(q) ==> !IsMarker(LineBody(q)))
            && NoBreak(q.body) && WellSplit(ps[1..]) && WellSplit(ps[2..])
            && (if q.ending == "" then ps[2..] == [] && y == "" && q.body != "" else IsEnding(q.ending))
            && ps[1..][1..] == ps[2..] && ps[1..][0] == q
  {
    hide LooksLikeEnvAssignment, LineBody, LineEnding, Hide, WellSplit, NoBreak, IsEnding;
    LostShape(ps);
    assert Hide(LineBody(ps[0])) + "" == Hide(LineBody(ps[0]));
  }

  lemma LostShape(ps: seq<Piece>)
    requires WellSplit(ps) && |ps| > 1 && !PlainBreak(ps[0])
    ensures LineEnding(ps[0]) == "" && NoBreak(ps[1].body)
    ensures WellSplit(ps[1..]) && WellSplit(ps[2..]) && ps[1..][1..] == ps[2..] && ps[1..][0] == ps[1]
    ensures if ps[1].ending == "" then ps[2..] == [] && ps[1].body != "" else IsEnding(ps[1].ending)
    ensures EmptyLine(ps[1]) ==> LineBody(ps[1]) == "" && !IsMarker(LineBody(ps[1]))
  {
    WellSplitTail(ps);
    WellSplitTail(ps[1..]);
    BodyOfPiece(ps[0]);
    BodyOfPiece(ps[1]);
    hide LineBody, LineEnding;
    assert ps[1..][1..] == ps[2..] && ps[1..][0] == ps[1];
  }

  lemma LastSwallowed(b: string, q: Piece)
    requires LooksLikeEnvAssignment(b) && NoBreak(q.body) && q.body != "" && q.ending == ""
    ensures Tail(Pieces(Hide(b) + q.body), true) != Hide(b) + q.body
  {
    HiddenAgain(b, q.body);
    var h := Hide(b);
    NoBreakAppend(h, q.body);
    SinglePiece(h + q.body);
    BodyOfPiece(Piece(h + q.body, ""));
    TailOfCons(Piece(h + q.body, ""), [], true);
    assert [Piece(h + q.body, "")] + [] == [Piece(h + q.body, "")];
    assert |h + q.body| > |h|;
    hide Hide, LooksLikeEnvAssignment;
  }

  // ---- The theorem ----

  /** A hidden line loses its break at most at the end or before an empty line. */
  predicate LossesAreHarmless(ps: seq<Piece>) {
    forall i | 0 <= i < |ps| - 1 :: LosesBreak(ps, i) ==> EmptyLine(ps[i + 1])
  }

  lemma {:induction false} SteadyIs(ps: seq<Piece>, i: nat)
    requires WellSplit(ps) && i <= |ps|
    ensures Steady(ps[i..], MarkedAt(ps, i)) <==>
            forall j | i <= j < |ps| - 1 :: LosesBreak(ps, j) ==> EmptyLine(ps[j + 1])
    decreases |ps| - i
  {
    MarkedMeans(ps, i);
    if i < |ps| {
      SteadyIs(ps, i + 1);
      MarkedMeans(ps, i + 1);
      BodyOfPiece(ps[i]);
      assert ps[i..][0] == ps[i] && ps[i..][1..] == ps[i + 1..];
      if i + 1 < |ps| { assert ps[i..][1] == ps[i + 1]; }
      if Hidden(ps, i) { HiddenIsNoMarker(ps, i); }
      hide IsMarker, LooksLikeEnvAssignment, LineBody, LineEnding, EmptyLine, NoBreak;
      assert i < |ps| - 1 ==> (LosesBreak(ps, i) <==> Hidden(ps, i) && !PlainBreak(ps[i]));
    }
  }

  /** Redacting again changes nothing exactly when every hidden line that loses its break is the last
      or is followed by an empty line. */
  lemma RedactIdempotentExactly(text: string)
    ensures Redact(Redact(text)) == Redact(text) <==> LossesAreHarmless(Pieces(text))
  {
    var ps := Pieces(text);
    PiecesAreWellSplit(text);
    RedactIsTail(text);
    RedactIsTail(Redact(text));
    TwiceExactly(ps, false);
    SteadyIs(ps, 0);
    assert ps[0..] == ps;
    hide Tail, Steady, Redact, Pieces, LosesBreak, EmptyLine;
  }

  /** In particular on texts whose lines end in newlines or carriage returns. */
  lemma PlainTextsRedactOnce(text: string)
    requires forall p <- Pieces(text) :: PlainBreak(p)
    ensures Redact(Redact(text)) == Redact(text)
  {
    var ps := Pieces(text);
    PiecesAreWellSplit(text);
    RedactIdempotentExactly(text);
    hide Pieces, Redact, LineBody, LineEnding, EmptyLine, NoBreak, IsEnding;
    forall i | 0 <= i < |ps| - 1 ensures !LosesBreak(ps, i) {
      assert ps[i] in ps;
      KeptLosesNothing(ps, i);
    }
  }

  lemma KeptLosesNothing(ps: seq<Piece>, i: nat)
    requires WellSplit(ps) && i < |ps| && PlainBreak(ps[i])
    ensures !LosesBreak(ps, i)
  {
    BodyOfPiece(ps[i]);
    hide Hidden, LineBody, LineEnding;
  }

  /** A vertical tab in a value is such a break: one redaction runs two lines together, the next one
      drops the second. */
  lemma VerticalTabBreaksIdempotence()
    ensures exists text :: Redact(Redact(text)) != Redact(text)
  {
    var ps := [Piece(MARKER, "\n"), Piece("K=v", "\U{0B}"), Piece("other", "")];
    var text := TextOf(ps);
    ExampleIsSplit();
    ExampleLoses();
    hide *;
    PiecesOfText(ps);
    RedactIdempotentExactly(text);
    ExampleIsHarmful(ps);
  }

  lemma ExampleIsSplit()
    ensures WellSplit([Piece(MARKER, "\n"), Piece("K=v", "\U{0B}"), Piece("other", "")])
  {
    MarkerHasNoBreak();
    assert "K=v" == ['K', '=', 'v'] && "other" == ['o', 't', 'h', 'e', 'r'];
    assert "other"[0] == 'o' && "K=v"[0] == 'K';
  }

  lemma ExampleLoses()
    ensures LosesBreak([Piece(MARKER, "\n"), Piece("K=v", "\U{0B}"), Piece("other", "")], 1)
  {
    ExampleIsSplit();
    var ps := [Piece(MARKER, "\n"), Piece("K=v", "\U{0B}"), Piece("other", "")];
    BodyOfPiece(ps[0]);
    BodyOfPiece(ps[1]);
    var b := LineBody(ps[1]);
    hide LineBody, LineEnding, WellSplit;
    assert b == ['K', '=', 'v', '\U{0B}'];
    assert LStrip(b) == b && IndexOf(b, '=') == 1 && KeyOf(b) == ['K'];
    assert LooksLikeEnvAssignment(b);
  }

  lemma ExampleIsHarmful(ps: seq<Piece>)
    requires |ps| == 3 && LosesBreak(ps, 1) && ps[2] == Piece("other", "")
    ensures !LossesAreHarmless(ps)
  {
    hide LosesBreak;
    assert ps[1 + 1].body != "";
  }

  lemma MarkerHasNoBreak()
    ensures NoBreak(MARKER)
  {}
}
