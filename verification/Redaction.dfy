/** Batch redaction of wizard-owned env assignments (`redact_dokploy_env_payload` in
    `verification.py`). */
module Redaction {
  import opened Text
  import opened EnvFormat
  import opened EnvMerge

  const REDACTED := "<REDACTED>"

  function RemoveSuffix(s: string, c: char): string {
    if s != "" && s[|s| - 1] == c then s[..|s| - 1] else s
  }

  /** The line without a trailing newline and then without a trailing carriage return; any other
      line break stays part of it. */
  function LineBody(p: Piece): string { RemoveSuffix(RemoveSuffix(p.Whole(), '\n'), '\r') }

  function LineEnding(p: Piece): string { p.Whole()[|LineBody(p)|..] }

  function Hide(line: string): string { KeyOf(line) + "=" + REDACTED }

  /** A line is hidden when it is an assignment right below a marker. */
  predicate Hidden(ps: seq<Piece>, i: nat)
    requires i < |ps|
  {
    i > 0 && IsMarker(LineBody(ps[i - 1])) && LooksLikeEnvAssignment(LineBody(ps[i]))
  }

  function RedactAt(ps: seq<Piece>, i: nat): Piece
    requires i < |ps|
  {
    if Hidden(ps, i) then Piece(Hide(LineBody(ps[i])), LineEnding(ps[i])) else ps[i]
  }

  function RedactPieces(ps: seq<Piece>): seq<Piece> {
    seq(|ps|, i requires 0 <= i < |ps| => RedactAt(ps, i))
  }

  function Wholes(ps: seq<Piece>): seq<string> {
    seq(|ps|, i requires 0 <= i < |ps| => ps[i].Whole())
  }

  function Redact(text: string): string { Concat(Wholes(RedactPieces(Pieces(text)))) }

  method RedactDokployEnvPayload(value: string) returns (redacted: string)
    ensures redacted == Redact(value)
  {
    hide IsMarker, LooksLikeEnvAssignment, LineBody, LineEnding, KeyOf;
    var ps := Pieces(value);
    var lines: seq<string> := [];
    var redactNextAssignment := false;
    for i := 0 to |ps|
      invariant lines == Wholes(RedactPieces(ps))[..i]
      invariant redactNextAssignment == (i > 0 && IsMarker(LineBody(ps[i - 1])))
    {
      var body := LineBody(ps[i]);
      AssignmentIsNoMarker(body);
      assert Wholes(RedactPieces(ps))[i] == RedactAt(ps, i).Whole();
      if redactNextAssignment && LooksLikeEnvAssignment(body) {
        lines := lines + [KeyOf(body) + "=" + REDACTED + LineEnding(ps[i])];
        redactNextAssignment := false;
        continue;
      }
      redactNextAssignment := IsMarker(body);
      lines := lines + [ps[i].Whole()];
    }
    assert Wholes(RedactPieces(ps))[..|ps|] == Wholes(RedactPieces(ps));
    redacted := Concat(lines);
  }

  // ---- Pieces and their text ----

  /** What `splitlines` can return: bodies without breaks, a break after each but the last, and no
      `\r` right before a `\n`. */
  predicate WellSplit(ps: seq<Piece>) {
    && (forall i :: 0 <= i < |ps| ==> NoBreak(ps[i].body))
    && (forall i :: 0 <= i < |ps| - 1 ==> IsEnding(ps[i].ending))
    && (ps != [] ==> IsEnding(Last(ps).ending) || (Last(ps).ending == "" && Last(ps).body != ""))
    && (forall i :: 0 < i < |ps| ==> ps[i - 1].ending == "\r" ==> !("\n" <= ps[i].Whole()))
  }

  function Last(ps: seq<Piece>): Piece
    requires ps != []
  {
    ps[|ps| - 1]
  }

  function TextOf(ps: seq<Piece>): string { if ps == [] then "" else ps[0].Whole() + TextOf(ps[1..]) }

  lemma {:induction false} TextIsConcat(ps: seq<Piece>)
    ensures TextOf(ps) == Concat(Wholes(ps))
  {
    if ps != [] {
      TextIsConcat(ps[1..]);
      assert Wholes(ps)[1..] == Wholes(ps[1..]);
    }
  }

  lemma NoEnding()
    ensures !IsEnding("")
  {}

  lemma BodyAlone(p: Piece)
    requires p.ending == "" && p.body != "" && NoBreak(p.body)
    ensures Pieces(p.body) == [p]
  {
    assert BreakAt(p.body) == |p.body|;
  }

  lemma {:induction false} PiecesOfText(ps: seq<Piece>)
    requires WellSplit(ps)
    ensures Pieces(TextOf(ps)) == ps
  {
    hide IsEnding, NoBreak, IsBreak;
    if ps != [] {
      var p, rest := ps[0], TextOf(ps[1..]);
      assert !IsEnding("") by { NoEnding(); }
      if p.ending == "" {
        assert |ps| == 1 && rest == "" && TextOf(ps) == p.body;
        BodyAlone(p);
      } else {
        PiecesOfText(ps[1..]);
        PieceSplits(p, rest) by {
          if |ps| > 1 { assert rest == ps[1].Whole() + TextOf(ps[1..][1..]); }
        }
        assert ps == [p] + ps[1..];
      }
    }
  }

  lemma WellSplitCons(p: Piece, ps: seq<Piece>)
    requires NoBreak(p.body) && IsEnding(p.ending) && WellSplit(ps)
    requires ps != [] && p.ending == "\r" ==> !("\n" <= ps[0].Whole())
    ensures WellSplit([p] + ps) && TextOf([p] + ps) == p.Whole() + TextOf(ps)
  {
    hide NoBreak, IsEnding;
    assert ([p] + ps)[1..] == ps;
  }

  lemma {:induction false} PiecesAreWellSplit(s: string)
    ensures WellSplit(Pieces(s)) && TextOf(Pieces(s)) == s
    decreases |s|
  {
    if s != "" {
      if BreakAt(s) < |s| {
        var p, rest := FirstPiece(s);
        PiecesAreWellSplit(rest);
        if Pieces(rest) != [] { assert rest == Pieces(rest)[0].Whole() + TextOf(Pieces(rest)[1..]); }
        WellSplitCons(p, Pieces(rest));
      } else {
        assert Pieces(s) == [Piece(s, "")] && TextOf([Piece(s, "")][1..]) == "";
      }
    }
  }

  lemma BodyOfPiece(p: Piece)
    requires NoBreak(p.body) && (IsEnding(p.ending) || p.ending == "")
    ensures p.ending in {"", "\n", "\r", "\r\n"} ==> LineBody(p) == p.body && LineEnding(p) == p.ending
    ensures p.ending !in {"", "\n", "\r", "\r\n"} ==> LineBody(p) == p.Whole() && LineEnding(p) == ""
  {
    var w := p.Whole();
    if p.ending == "\r\n" {
      assert w[|w| - 1] == '\n' && w[..|w| - 1] == p.body + "\r";
      assert (p.body + "\r")[..|p.body|] == p.body;
    } else if |p.ending| == 1 {
      assert w[|w| - 1] == p.ending[0] && w[..|w| - 1] == p.body;
      if p.body != "" { assert IsBreak(p.ending[0]) && !IsBreak(p.body[|p.body| - 1]); }
      if p.ending == "\n" { assert RemoveSuffix(w, '\n') == p.body; }
      if p.ending[0] == '\n' { assert p.ending == "\n"; }
      if p.ending[0] == '\r' { assert p.ending == "\r"; }
    } else {
      assert w == p.body;
    }
  }

  // ---- Line count ----

  /** A hidden line that ends in a break other than newline and carriage return: the break is taken
      for part of the value and disappears. */
  predicate LosesBreak(ps: seq<Piece>, i: nat)
    requires i < |ps|
  {
    Hidden(ps, i) && LineEnding(ps[i]) != ps[i].ending
  }

  predicate KeepsBreaks(ps: seq<Piece>) { forall i :: 0 <= i < |ps| - 1 ==> !LosesBreak(ps, i) }

  lemma HideIsAssignment(line: string)
    requires LooksLikeEnvAssignment(line)
    ensures LooksLikeEnvAssignment(Hide(line)) && KeyOf(Hide(line)) == KeyOf(line)
    ensures NoBreak(Hide(line)) && Hide(line) != "" && Hide(Hide(line)) == Hide(line)
  {
    var k, h := KeyOf(line), Hide(line);
    IdentifierIsPlain(k);
    assert h[|k|] == '=' && forall j :: 0 <= j < |k| ==> h[j] == k[j];
    assert IndexOf(h, '=') == |k|;
    assert h[0] == k[0] && LStrip(h) == h;
  }

  lemma RedactAtSplits(ps: seq<Piece>, i: nat)
    requires WellSplit(ps) && i < |ps|
    ensures NoBreak(RedactAt(ps, i).body)
    ensures !LosesBreak(ps, i) ==> RedactAt(ps, i).ending == ps[i].ending
    ensures LosesBreak(ps, i) ==> RedactAt(ps, i).ending == ""
    ensures Hidden(ps, i) ==> RedactAt(ps, i).body != "" && RedactAt(ps, i).body[0] != '\n'
    ensures !Hidden(ps, i) ==> RedactAt(ps, i) == ps[i]
  {
    BodyOfPiece(ps[i]);
    if Hidden(ps, i) { HideIsAssignment(LineBody(ps[i])); }
  }

  lemma RedactedIsWellSplit(ps: seq<Piece>)
    requires WellSplit(ps) && KeepsBreaks(ps)
    ensures WellSplit(RedactPieces(ps))
  {
    hide RedactAt, Hidden, LosesBreak, NoBreak, IsEnding;
    var rs := RedactPieces(ps);
    forall i | 0 <= i < |ps|
      ensures NoBreak(rs[i].body) && (i < |ps| - 1 ==> rs[i].ending == ps[i].ending)
      ensures rs[i] == ps[i] || rs[i].ending == ps[i].ending || (rs[i].ending == "" && rs[i].body != "")
      ensures rs[i] == ps[i] || (rs[i].body != "" && rs[i].Whole()[0] != '\n')
    {
      RedactAtSplits(ps, i);
    }
  }

  lemma PiecesOfRedacted(text: string)
    requires KeepsBreaks(Pieces(text))
    ensures Pieces(Redact(text)) == RedactPieces(Pieces(text))
  {
    PiecesAreWellSplit(text);
    RedactedIsWellSplit(Pieces(text));
    TextIsConcat(RedactPieces(Pieces(text)));
    PiecesOfText(RedactPieces(Pieces(text)));
  }

  /** How many lines a piece list makes once pieces without an ending run into the next one. */
  function LineCount(rs: seq<Piece>, carried: bool): nat {
    if rs == [] then if carried then 1 else 0
    else if rs[0].ending == "" then LineCount(rs[1..], true)
    else 1 + LineCount(rs[1..], false)
  }

  predicate Glued(ps: seq<Piece>, rs: seq<Piece>) {
    && |ps| == |rs| && WellSplit(ps)
    && forall i :: 0 <= i < |rs| ==>
         && NoBreak(rs[i].body)
         && (rs[i] == ps[i] || (rs[i].body != "" && (rs[i].ending == ps[i].ending || rs[i].ending == "")))
  }

  lemma PlainPiece(s: string)
    requires NoBreak(s)
    ensures |Pieces(s)| == if s == "" then 0 else 1
  {
    assert BreakAt(s) == |s|;
  }

  lemma NoGlueStart(ps: seq<Piece>, rs: seq<Piece>)
    requires Glued(ps, rs) && rs != [] && rs[0].ending == "\r"
    ensures !("\n" <= TextOf(rs[1..]))
  {
    if |rs| > 1 {
      assert TextOf(rs[1..]) == rs[1].Whole() + TextOf(rs[1..][1..]);
      assert ps[1 - 1].ending == "\r" ==> !("\n" <= ps[1].Whole());
      if rs[1] != ps[1] { assert rs[1].Whole()[0] == rs[1].body[0]; }
    }
  }

  lemma GluedTail(ps: seq<Piece>, rs: seq<Piece>)
    requires Glued(ps, rs) && rs != []
    ensures Glued(ps[1..], rs[1..])
  {
    hide NoBreak, IsEnding;
  }

  lemma {:induction false} CountsLines(ps: seq<Piece>, rs: seq<Piece>, carry: string)
    requires Glued(ps, rs) && NoBreak(carry)
    ensures |Pieces(carry + TextOf(rs))| == LineCount(rs, carry != "")
    decreases |rs|
  {
    hide Pieces, NoBreak;
    if rs == [] {
      assert carry + TextOf(rs) == carry;
      PlainPiece(carry);
    } else {
      var r, rest := rs[0], TextOf(rs[1..]);
      GluedTail(ps, rs);
      NoBreakAppend(carry, r.body);
      Regroup(carry, r.body + r.ending, rest);
      if r.ending == "" {
        CountsLines(ps[1..], rs[1..], carry + r.body);
        assert r.body + r.ending == r.body;
      } else {
        EmptyHasNoBreak();
        CountsLines(ps[1..], rs[1..], "");
        assert "" + rest == rest;
        if r.ending == "\r" { NoGlueStart(ps, rs); }
        PieceSplits(Piece(carry + r.body, r.ending), rest);
        Regroup(carry, r.body, r.ending);
      }
    }
  }

  lemma EmptyHasNoBreak()
    ensures NoBreak("")
  {}

  lemma {:induction false} LineCountBound(rs: seq<Piece>, carried: bool)
    ensures rs != [] ==> LineCount(rs, carried) <= |rs|
    ensures rs != [] ==> (LineCount(rs, carried) == |rs| <==> forall i :: 0 <= i < |rs| - 1 ==> rs[i].ending != "")
  {
    if rs != [] {
      LineCountBound(rs[1..], rs[0].ending == "");
      if |rs| > 1 {
        assert forall i :: 0 < i < |rs| - 1 ==> rs[i] == rs[1..][i - 1];
        if forall i :: 0 <= i < |rs[1..]| - 1 ==> rs[1..][i].ending != "" {
          assert forall i :: 0 < i < |rs| - 1 ==> rs[i].ending != "";
        } else {
          var i :| 0 <= i < |rs[1..]| - 1 && rs[1..][i].ending == "";
          assert rs[i + 1].ending == "";
        }
      }
    }
  }

  /** Redaction keeps the number of lines exactly when no hidden line but the last ends in a break
      other than newline and carriage return, and it never adds one. */
  lemma RedactKeepsLineCountExactly(text: string)
    ensures |Pieces(Redact(text))| == |Pieces(text)| <==> KeepsBreaks(Pieces(text))
    ensures |Pieces(Redact(text))| <= |Pieces(text)|
  {
    var ps := Pieces(text);
    var rs := RedactPieces(ps);
    PiecesAreWellSplit(text);
    forall i | 0 <= i < |ps|
      ensures NoBreak(rs[i].body) && (rs[i].ending == ps[i].ending || rs[i].ending == "")
      ensures rs[i] == ps[i] || rs[i].body != ""
      ensures i < |ps| - 1 ==> (rs[i].ending == "" <==> LosesBreak(ps, i))
    {
      RedactAtSplits(ps, i);
    }
    CountsLines(ps, rs, "");
    TextIsConcat(rs);
    assert "" + TextOf(rs) == Redact(text);
    LineCountBound(rs, false);
  }

  // ---- Values do not show ----

  predicate SameButValue(a: EnvSpec, b: EnvSpec) {
    a.name == b.name && a.marker == b.marker && a.owner == b.owner && a.fingerprint == b.fingerprint
  }

  predicate SameButValues(a: seq<EnvSpec>, b: seq<EnvSpec>) {
    |a| == |b| && forall i :: 0 <= i < |a| ==> SameButValue(a[i], b[i])
  }

  /** Line `i` is the same in both lists, or an assignment of the same key right below one marker. */
  predicate AgreeAt(a: seq<string>, b: seq<string>, i: nat)
    requires i < |a| == |b|
  {
    a[i] == b[i]
    || (i > 0 && a[i - 1] == b[i - 1] && IsMarker(a[i - 1]) && LooksLikeEnvAssignment(a[i])
        && LooksLikeEnvAssignment(b[i]) && KeyOf(a[i]) == KeyOf(b[i]))
  }

  /** Line lists that differ only in the values of assignments right below a marker. */
  predicate SameButHidden(a: seq<string>, b: seq<string>) {
    |a| == |b| && forall i :: 0 <= i < |a| ==> AgreeAt(a, b, i)
  }

  lemma SameButHiddenSnoc(x: seq<string>, y: seq<string>, m: string, a: string, b: string)
    requires SameButHidden(x, y) && IsMarker(m) && LooksLikeEnvAssignment(a)
    requires LooksLikeEnvAssignment(b) && KeyOf(a) == KeyOf(b)
    ensures SameButHidden(x + [m, a], y + [m, b])
  {
    hide IsMarker, LooksLikeEnvAssignment, KeyOf;
    var p, q := x + [m, a], y + [m, b];
    assert p[|x|] == q[|x|] == m && p[|x| + 1] == a && q[|x| + 1] == b;
    forall i | 0 <= i < |p|
      ensures AgreeAt(p, q, i)
    {
      if i < |x| {
        assert AgreeAt(x, y, i) && p[i] == x[i] && q[i] == y[i];
        if i > 0 { assert p[i - 1] == x[i - 1] && q[i - 1] == y[i - 1]; }
      }
    }
  }

  lemma {:induction false} BlocksDifferInValues(kept: seq<string>, a: seq<EnvSpec>, b: seq<EnvSpec>)
    requires SameButValues(a, b) && AllWellFormed(a) && AllWellFormed(b)
    ensures SameButHidden(kept + BlockLines(a), kept + BlockLines(b))
  {
    if a != [] {
      var n := |a| - 1;
      var s, t := a[n], b[n];
      assert s in a && t in b;
      BlocksDifferInValues(kept, a[..n], b[..n]);
      BlockLinesSnoc(a);
      BlockLinesSnoc(b);
      MarkerLineIsOneLine(s);
      AssignmentLineParses(s);
      AssignmentLineParses(t);
      assert MarkerLine(s) == MarkerLine(t);
      hide AssignmentLine, MarkerLine, BlockLines, SameButHidden, LooksLikeEnvAssignment, IsMarker, KeyOf;
      Regroup(kept, BlockLines(a[..n]), [MarkerLine(s), AssignmentLine(s)]);
      Regroup(kept, BlockLines(b[..n]), [MarkerLine(s), AssignmentLine(t)]);
      SameButHiddenSnoc(kept + BlockLines(a[..n]), kept + BlockLines(b[..n]),
                        MarkerLine(s), AssignmentLine(s), AssignmentLine(t));
    } else {
      assert a == b;
    }
  }

  lemma NewlinedBodies(ls: seq<string>, i: nat)
    requires i < |ls| && AllNoBreak(ls)
    ensures LineBody(Newlined(ls)[i]) == ls[i] && LineEnding(Newlined(ls)[i]) == "\n"
  {
    BodyOfPiece(Newlined(ls)[i]);
  }

  lemma HiddenDifferencesVanish(a: seq<string>, b: seq<string>)
    requires SameButHidden(a, b) && AllNoBreak(a) && AllNoBreak(b)
    ensures RedactPieces(Newlined(a)) == RedactPieces(Newlined(b))
  {
    hide LooksLikeEnvAssignment, IsMarker, KeyOf, LineBody, LineEnding;
    var p, q := Newlined(a), Newlined(b);
    forall i | 0 <= i < |a|
      ensures RedactAt(p, i) == RedactAt(q, i)
    {
      NewlinedBodies(a, i);
      NewlinedBodies(b, i);
      assert AgreeAt(a, b, i);
      if i > 0 {
        NewlinedBodies(a, i - 1);
        NewlinedBodies(b, i - 1);
        assert AgreeAt(a, b, i - 1);
        if a[i - 1] != b[i - 1] {
          AssignmentIsNoMarker(a[i - 1]);
          AssignmentIsNoMarker(b[i - 1]);
        }
      }
    }
  }

  lemma MergedPieces(text: string, specs: seq<EnvSpec>)
    requires AllWellFormed(specs) && AllAdmissible(specs)
    ensures var ls := Kept(text, specs) + BlockLines(specs);
            AllNoBreak(ls) && Pieces(Merge(text, specs)) == Newlined(ls)
  {
    var k, b := Kept(text, specs), BlockLines(specs);
    hide BlockLines, Kept, Merge, RenderBlock, Terminated, NoBreak, TrimTail;
    MergeShape(text, specs);
    RenderBlockIsTerminated(specs);
    KeptIsForeign(text, specs);
    BlockLinesAreLines(specs);
    TerminatedAppend(k, b);
    PiecesTerminated(k + b, "");
    assert Terminated(k + b) + "" == Merge(text, specs);
    assert Newlined(k + b) + Pieces("") == Newlined(k + b);
  }

  /** Over any existing text, two payloads whose specs agree on all but the values look the same
      once redacted. */
  lemma RedactionHidesValues(text: string, a: seq<EnvSpec>, b: seq<EnvSpec>)
    requires SameButValues(a, b) && AllWellFormed(a) && AllWellFormed(b)
    requires AllAdmissible(a) && AllAdmissible(b)
    ensures Redact(Merge(text, a)) == Redact(Merge(text, b))
  {
    MergedPieces(text, a);
    MergedPieces(text, b);
    SameOwners(a, b);
    BlocksDifferInValues(Kept(text, a), a, b);
    HiddenDifferencesVanish(Kept(text, a) + BlockLines(a), Kept(text, a) + BlockLines(b));
  }

  lemma SameOwners(a: seq<EnvSpec>, b: seq<EnvSpec>)
    requires SameButValues(a, b)
    ensures OwnedPairs(a) == OwnedPairs(b)
  {
    forall p | p in OwnedPairs(a) ensures p in OwnedPairs(b) {
      var i :| 0 <= i < |a| && p == (a[i].marker, a[i].owner);
      assert b[i] in b;
    }
    forall p | p in OwnedPairs(b) ensures p in OwnedPairs(a) {
      var i :| 0 <= i < |b| && p == (b[i].marker, b[i].owner);
      assert a[i] in a;
    }
  }

  // ---- Exactly which values stay hidden ----

  lemma AssignmentStart(s: EnvSpec)
    requires WellFormed(s)
    ensures var l, n := AssignmentLine(s), |s.name| + 1;
            var t := l + "\n";
            && n <= BreakAt(t) < |t|
            && t[..BreakAt(t)] == s.name + "=" + t[n..BreakAt(t)]
            && (NoBreak(l) <==> t[..BreakAt(t)] == l)
  {
    hide DotenvValue, IsBreak;
    var l, n := AssignmentLine(s), |s.name| + 1;
    var t := l + "\n";
    assert NoBreak(s.name + "=") && IsBreak('\n') by { NameHasNoBreak(s); }
    assert t[|l|] == '\n' && BreakAt(t) <= |l|;
    assert forall j :: 0 <= j < n ==> t[j] == (s.name + "=")[j];
    if NoBreak(l) { assert forall j :: 0 <= j < |l| ==> t[j] == l[j]; }
  }

  lemma NameHasNoBreak(s: EnvSpec)
    requires WellFormed(s)
    ensures NoBreak(s.name + "=") && IsBreak('\n')
  {
    IdentifierIsPlain(s.name);
  }

  lemma PieceIsAssignment(s: EnvSpec, p: Piece, v: string)
    requires WellFormed(s) && p.body == s.name + "=" + v && NoBreak(p.body) && IsEnding(p.ending)
    ensures LooksLikeEnvAssignment(LineBody(p)) && KeyOf(LineBody(p)) == s.name
    ensures p.ending == "\n" || p.ending == "\r" ==> LineEnding(p) == p.ending
  {
    BodyOfPiece(p);
    hide LineBody, LineEnding, IsEnding, NoBreak, LooksLikeEnvAssignment, KeyOf;
    CutAssignment(s, v);
    CutAssignment(s, v + p.ending);
    Regroup(s.name + "=", v, p.ending);
  }

  lemma FirstPieceOfAssignment(s: EnvSpec) returns (p: Piece, rest: string)
    requires WellFormed(s)
    ensures Pieces(AssignmentLine(s) + "\n") == [p] + Pieces(rest)
    ensures AssignmentLine(s) + "\n" == p.Whole() + rest
    ensures LooksLikeEnvAssignment(LineBody(p)) && KeyOf(LineBody(p)) == s.name
    ensures p.ending == "\n" || p.ending == "\r" ==> LineEnding(p) == p.ending
    ensures NoBreak(AssignmentLine(s)) <==> p.body == AssignmentLine(s)
    ensures NoBreak(p.body) && IsEnding(p.ending)
  {
    AssignmentStart(s);
    hide *;
    var t := AssignmentLine(s) + "\n";
    p, rest := FirstPiece(t);
    PieceIsAssignment(s, p, t[|s.name| + 1..BreakAt(t)]);
  }

  lemma {:induction false} RedactedNotShorter(rs: seq<Piece>)
    requires forall r <- rs :: r.Whole() != ""
    ensures |TextOf(rs)| >= |rs|
  {
    if rs != [] {
      assert rs[0].Whole() != "";
      RedactedNotShorter(rs[1..]);
    }
  }

  lemma {:induction false} TextOfAppend(a: seq<Piece>, b: seq<Piece>)
    ensures TextOf(a + b) == TextOf(a) + TextOf(b)
  {
    hide Piece.Whole;
    if a == [] {
      assert a + b == b;
    } else {
      TextOfAppend(a[1..], b);
      assert (a + b)[1..] == a[1..] + b;
      Regroup(a[0].Whole(), TextOf(a[1..]), TextOf(b));
    }
  }

  lemma RedactedPieceShows(ps: seq<Piece>, i: nat)
    requires i < |ps| && (IsEnding(ps[i].ending) || ps[i].body != "")
    ensures RedactAt(ps, i).Whole() != ""
  {
    hide Hidden, LineBody, LineEnding;
  }

  /** Only what stands below the assignment is left to see, and it starts with an unhidden line. */
  lemma RedactBelow(m: string, p: Piece, q: seq<Piece>)
    requires NoBreak(m) && IsMarker(m) && LooksLikeEnvAssignment(LineBody(p)) && WellSplit(q)
    ensures var rs := RedactPieces([Piece(m, "\n"), p] + q);
            && rs[0] == Piece(m, "\n") && rs[1] == Piece(Hide(LineBody(p)), LineEnding(p))
            && (forall i :: 2 <= i < |rs| ==> rs[i].Whole() != "") && (|q| >= 1 ==> rs[2] == q[0])
  {
    var ps := [Piece(m, "\n"), p] + q;
    BodyOfPiece(Piece(m, "\n"));
    AssignmentIsNoMarker(LineBody(p));
    hide LineBody, LineEnding, LooksLikeEnvAssignment, IsMarker, NoBreak, IsEnding, Hide, Piece.Whole;
    assert ps[0] == Piece(m, "\n") && ps[1] == p && Hidden(ps, 1) && !Hidden(ps, 0);
    assert |q| >= 1 ==> ps[2] == q[0] && !Hidden(ps, 2);
    assert RedactAt(ps, 1) == Piece(Hide(LineBody(p)), LineEnding(p)) && RedactAt(ps, 0) == ps[0];
    assert |q| >= 1 ==> RedactAt(ps, 2) == q[0];
    hide Hidden, RedactAt;
    forall i | 2 <= i < |ps|
      ensures RedactAt(ps, i).Whole() != ""
    {
      assert ps[i] == q[i - 2];
      RedactedPieceShows(ps, i);
    }
  }

  lemma RedactBlock(m: string, p: Piece, q: seq<Piece>) returns (below: string)
    requires NoBreak(m) && IsMarker(m) && LooksLikeEnvAssignment(LineBody(p)) && WellSplit(q)
    ensures TextOf(RedactPieces([Piece(m, "\n"), p] + q))
            == m + "\n" + (Hide(LineBody(p)) + LineEnding(p)) + below
    ensures (|q| == 0 ==> below == "") && (|q| == 1 ==> below == q[0].Whole()) && |below| >= |q|
  {
    RedactBelow(m, p, q);
    hide RedactAt, Hidden, LineBody, LineEnding, IsMarker, LooksLikeEnvAssignment, Hide, WellSplit;
    var rs := RedactPieces([Piece(m, "\n"), p] + q);
    below := TextOf(rs[2..]);
    RedactedNotShorter(rs[2..]);
    TextOfAppend(rs[..2], rs[2..]);
    assert rs[..2] + rs[2..] == rs && rs[..2] == [rs[0], rs[1]];
    TextOfTwo(rs[0], rs[1]);
    if |q| == 1 {
      assert rs[2..] == [rs[2]] && rs[2..][1..] == [];
      assert TextOf([rs[2]]) == rs[2].Whole() + TextOf([]);
    }
  }

  lemma TextOfTwo(a: Piece, b: Piece)
    ensures TextOf([a, b]) == a.Whole() + b.Whole()
  {
    assert [a, b][1..] == [b];
    TextOfOne([b]);
  }

  lemma TextOfOne(q: seq<Piece>)
    requires |q| == 1
    ensures TextOf(q) == q[0].Whole()
  {
    assert q[1..] == [];
  }

  lemma PiecesOfOneSpec(s: EnvSpec) returns (p: Piece, rest: string)
    requires WellFormed(s)
    ensures Pieces(RenderBlock([s])) == [Piece(MarkerLine(s), "\n"), p] + Pieces(rest)
    ensures AssignmentLine(s) + "\n" == p.Whole() + rest
    ensures LooksLikeEnvAssignment(LineBody(p)) && KeyOf(LineBody(p)) == s.name
    ensures p.ending == "\n" || p.ending == "\r" ==> LineEnding(p) == p.ending
    ensures NoBreak(AssignmentLine(s)) <==> p.body == AssignmentLine(s)
    ensures NoBreak(p.body) && IsEnding(p.ending)
  {
    p, rest := FirstPieceOfAssignment(s);
    OneSpecBlock(s);
    MarkerLineIsOneLine(s);
    hide *;
    TerminatedTwo(MarkerLine(s), AssignmentLine(s));
    PiecesBelow(MarkerLine(s), AssignmentLine(s) + "\n", p, Pieces(rest));
  }

  lemma PiecesBelow(m: string, t: string, p: Piece, q: seq<Piece>)
    requires NoBreak(m) && Pieces(t) == [p] + q
    ensures Pieces(m + "\n" + t) == [Piece(m, "\n"), p] + q
    ensures m + "\n" + t == m + ("\n" + t)
  {
    hide *;
    PiecesCons(m, t);
    Regroup([Piece(m, "\n")], [p], q);
  }

  lemma RedactOneSpec(s: EnvSpec) returns (p: Piece, rest: string, below: string)
    requires WellFormed(s)
    ensures Redact(RenderBlock([s])) == MarkerLine(s) + "\n" + (s.name + "=" + REDACTED + LineEnding(p)) + below
    ensures AssignmentLine(s) + "\n" == p.Whole() + rest
    ensures NoBreak(AssignmentLine(s)) <==> p.body == AssignmentLine(s)
    ensures NoBreak(p.body) && IsEnding(p.ending)
    ensures p.ending == "\n" || p.ending == "\r" ==> LineEnding(p) == p.ending
    ensures |below| >= |Pieces(rest)| && (|Pieces(rest)| <= 1 ==> below == rest)
  {
    p, rest := PiecesOfOneSpec(s);
    MarkerLineIsOneLine(s);
    PiecesAreWellSplit(rest);
    var q := Pieces(rest);
    below := RedactBlock(MarkerLine(s), p, q);
    TextIsConcat(RedactPieces(Pieces(RenderBlock([s]))));
    if |q| == 1 { TextOfOne(q); }
    hide LineBody, LineEnding, LooksLikeEnvAssignment, KeyOf, IsMarker, NoBreak, RenderBlock, MarkerLine,
      AssignmentLine, Pieces, RedactPieces, WellSplit, WellFormed, TextOf;
  }

  lemma InadmissibleLeavesMore(s: EnvSpec, body: string, ending: string, rest: string)
    requires WellFormed(s) && !Admissible(s.value)
    requires AssignmentLine(s) + "\n" == body + ending + rest
    requires NoBreak(body) && body != AssignmentLine(s) && IsEnding(ending)
    ensures (ending == "\n" && rest != "") || |rest| >= 2
  {
    IdentifierIsPlain(s.name);
    var l, v := AssignmentLine(s), s.value;
    StopsInside(l, body, ending, rest);
    if SafeThenNewline(v) {
      var head := s.name + "=" + v[..|v| - 1];
      SafeHasNoBreak(v[..|v| - 1]);
      NoBreakAppend(s.name + "=", v[..|v| - 1]);
      assert l[..|l| - 1] == head && l[|l| - 1] == '\n';
      StopsAtNewline(l, body, ending, rest);
    } else {
      QuotedEnd(s);
      StopsBeforeQuote(l, body, ending, rest);
    }
  }

  lemma StopsInside(l: string, body: string, ending: string, rest: string)
    requires l + "\n" == body + ending + rest && NoBreak(body) && body != l
    ensures |body| < |l|
  {
    var t, b := l + "\n", |body|;
    assert t[..|l|] == l && t[|l|] == '\n' && forall j :: 0 <= j < b ==> body[j] == t[j];
  }

  lemma StopsAtNewline(l: string, body: string, ending: string, rest: string)
    requires l + "\n" == body + ending + rest && |body| < |l| && IsEnding(ending)
    requires l[|l| - 1] == '\n' && NoBreak(l[..|l| - 1])
    ensures ending == "\n" && rest != ""
  {
    var b := |body|;
    assert l[b] == (l + "\n")[b] == ending[0];
    assert forall j :: 0 <= j < |l| - 1 ==> l[j] == l[..|l| - 1][j];
  }

  lemma StopsBeforeQuote(l: string, body: string, ending: string, rest: string)
    requires l + "\n" == body + ending + rest && |body| < |l| && IsEnding(ending) && l[|l| - 1] == '"'
    ensures |rest| >= 2
  {
    var t, b := l + "\n", |body|;
    assert t[|l| - 1] == '"' && t[b] == ending[0];
    if |ending| == 2 { assert t[b + 1] == ending[1]; }
  }

  lemma QuotedEnd(s: EnvSpec)
    requires !Admissible(s.value) && !SafeThenNewline(s.value)
    ensures var l := AssignmentLine(s); l[|l| - 1] == '"'
  {
    if AllSafe(s.value) { SafeHasNoBreak(s.value); }
    hide Replace, AllSafe, SafeThenNewline;
    var d := DotenvValue(s.value);
    assert d[|d| - 1] == '"' && AssignmentLine(s)[|AssignmentLine(s)| - 1] == d[|d| - 1];
  }

  /** In a block of one, redaction makes a value indistinguishable from the empty one exactly when its
      encoding is one line; any other leaves something more to see. */
  lemma OneValueStaysHiddenExactly(s: EnvSpec, t: EnvSpec)
    requires WellFormed(s) && SameButValue(s, t) && t.value == ""
    ensures Redact(RenderBlock([s])) == Redact(RenderBlock([t])) <==> Admissible(s.value)
    ensures !Admissible(s.value) ==> |Redact(RenderBlock([s]))| > |Redact(RenderBlock([t]))|
  {
    assert MarkerLine(s) == MarkerLine(t) && WellFormed(t) && Admissible("") by {
      EncodingIsOneLineExactly("");
    }
    AdmissibleIsOneLine(s);
    AdmissibleIsOneLine(t);
    var p, rest, below := RedactOneSpec(s);
    var p', rest', below' := RedactOneSpec(t);
    if !Admissible(s.value) { InadmissibleLeavesMore(s, p.body, p.ending, rest); }
    WholeLineIsOnePiece(t, p', rest');
    if Admissible(s.value) { WholeLineIsOnePiece(s, p, rest); }
    EmptyHasNoPieces();
    assert rest != "" ==> Pieces(rest) != [];
    hide Redact, RenderBlock, MarkerLine, AssignmentLine, LineEnding, Pieces, Admissible, WellFormed, NoBreak, IsEnding;
    assert below' == "";
    var head := MarkerLine(s) + "\n" + (s.name + "=" + REDACTED);
    CompareTails(MarkerLine(s) + "\n", s.name + "=" + REDACTED, LineEnding(p), below);
    CompareTails(MarkerLine(t) + "\n", s.name + "=" + REDACTED, LineEnding(p'), "");
    if !Admissible(s.value) { assert |LineEnding(p)| + |below| >= 2; }
  }

  lemma CompareTails(a: string, b: string, c: string, d: string)
    ensures a + (b + c) + d == a + b + (c + d)
  {}

  lemma AdmissibleIsOneLine(s: EnvSpec)
    requires WellFormed(s)
    ensures NoBreak(AssignmentLine(s)) <==> Admissible(s.value)
  {
    IdentifierIsPlain(s.name);
    EncodingIsOneLineExactly(s.value);
    NoBreakAppend(s.name + "=", DotenvValue(s.value));
  }

  lemma WholeLineIsOnePiece(s: EnvSpec, p: Piece, rest: string)
    requires AssignmentLine(s) + "\n" == p.Whole() + rest && p.body == AssignmentLine(s) && IsEnding(p.ending)
    ensures p.ending == "\n" && rest == ""
  {
    hide AssignmentLine;
    var l := AssignmentLine(s);
    assert |p.ending| + |rest| == 1;
    assert (l + "\n")[|l|] == (p.Whole() + rest)[|l|] == p.ending[0];
  }
}
