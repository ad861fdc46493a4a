/** Python text primitives the wizard relies on: `str.splitlines`, `str.strip`, `str.split`,
    `"\n".join` and prefix tests, over the full sets of line-break and white-space characters. */
module Text {
  datatype Option<+T> = None | Some(value: T)

  datatype Result<+T, +E> = Ok(value: T) | Err(error: E) {
    predicate IsFailure() { Err? }

    function PropagateFailure<U>(): Result<U, E>
      requires Err?
    {
      Err(error)
    }

    function Extract(): T
      requires Ok?
    {
      value
    }
  }

  /** The characters at which `str.splitlines` ends a line. */
  predicate IsBreak(c: char) {
    c == '\n' || c == '\r' || c == '\U{0B}' || c == '\U{0C}' || '\U{1C}' <= c <= '\U{1E}'
    || c == '\U{85}' || c == '\U{2028}' || c == '\U{2029}'
  }

  /** The characters `str.strip` and `str.split` treat as white space; every line break is one. */
  predicate IsSpace(c: char) {
    IsBreak(c) || c == '\t' || c == '\U{1F}' || c == ' ' || c == '\U{A0}' || c == '\U{1680}'
    || '\U{2000}' <= c <= '\U{200A}' || c == '\U{202F}' || c == '\U{205F}' || c == '\U{3000}'
  }

  lemma BreaksAre(c: char)
    ensures IsBreak(c) <==> c as int in {0x0A, 0x0B, 0x0C, 0x0D, 0x1C, 0x1D, 0x1E, 0x85, 0x2028, 0x2029}
  {}

  lemma SpacesAre(c: char)
    ensures var n := c as int;
            IsSpace(c) <==> || 0x09 <= n <= 0x0D || 0x1C <= n <= 0x20 || 0x2000 <= n <= 0x200A
                            || n in {0x85, 0xA0, 0x1680, 0x2028, 0x2029, 0x202F, 0x205F, 0x3000}
  {}

  predicate NoBreak(s: string) { forall i :: 0 <= i < |s| ==> !IsBreak(s[i]) }

  predicate NoSpace(s: string) { forall i :: 0 <= i < |s| ==> !IsSpace(s[i]) }

  predicate AllSpace(s: string) { forall i :: 0 <= i < |s| ==> IsSpace(s[i]) }

  predicate AllNoBreak(ls: seq<string>) { forall i :: 0 <= i < |ls| ==> NoBreak(ls[i]) }

  function BreakAt(s: string): (i: nat)
    ensures i <= |s| && (forall j :: 0 <= j < i ==> !IsBreak(s[j])) && (i < |s| ==> IsBreak(s[i]))
  {
    if s == "" || IsBreak(s[0]) then 0 else 1 + BreakAt(s[1..])
  }

  /** One element of `splitlines`: the line and the break that ends it, "" at the end of the text. */
  datatype Piece = Piece(body: string, ending: string) {
    function Whole(): string { body + ending }
  }

  function Pieces(s: string): (ps: seq<Piece>)
    ensures s != "" ==> ps != []
  {
    if s == "" then []
    else
      var i := BreakAt(s);
      if i == |s| then [Piece(s, "")]
      else
        var e := if s[i] == '\r' && i + 1 < |s| && s[i + 1] == '\n' then i + 2 else i + 1;
        [Piece(s[..i], s[i..e])] + Pieces(s[e..])
  }

  function Bodies(ps: seq<Piece>): seq<string> { seq(|ps|, i requires 0 <= i < |ps| => ps[i].body) }

  function Lines(s: string): seq<string> { Bodies(Pieces(s)) }

  function Concat(ls: seq<string>): string { if ls == [] then "" else ls[0] + Concat(ls[1..]) }

  /** Every line followed by a newline. */
  function Terminated(ls: seq<string>): string {
    if ls == [] then "" else ls[0] + "\n" + Terminated(ls[1..])
  }

  function JoinLines(ls: seq<string>): string {
    if ls == [] then "" else if |ls| == 1 then ls[0] else ls[0] + "\n" + JoinLines(ls[1..])
  }

  function RStrip(s: string): string {
    if s == "" || !IsSpace(s[|s| - 1]) then s else RStrip(s[..|s| - 1])
  }

  function LStrip(s: string): string {
    if s == "" || !IsSpace(s[0]) then s else LStrip(s[1..])
  }

  function Strip(s: string): string { LStrip(RStrip(s)) }

  predicate Blank(s: string) { RStrip(s) == "" }

  /** What `"\n".join(ls).rstrip()` leaves of the lines: trailing blank lines go, the last line
      with content loses its trailing white space; one empty line remains of blank input. */
  function TrimTail(ls: seq<string>): (r: seq<string>)
    requires ls != []
    ensures r != []
  {
    var n := |ls| - 1;
    if n == 0 || !Blank(ls[n]) then ls[..n] + [RStrip(ls[n])] else TrimTail(ls[..n])
  }

  function SpaceAt(s: string): (i: nat)
    ensures i <= |s| && (forall j :: 0 <= j < i ==> !IsSpace(s[j])) && (i < |s| ==> IsSpace(s[i]))
  {
    if s == "" || IsSpace(s[0]) then 0 else 1 + SpaceAt(s[1..])
  }

  /** `str.split()` on runs of white space. */
  function Words(s: string): seq<string> {
    if s == "" then []
    else if IsSpace(s[0]) then Words(s[1..])
    else
      var i := SpaceAt(s);
      [s[..i]] + Words(s[i..])
  }

  predicate Contains(s: string, c: char) { exists i :: 0 <= i < |s| && s[i] == c }

  /** The index of the first `c`, or the length when there is none. */
  function IndexOf(s: string, c: char): (i: nat)
    ensures i <= |s| && (i < |s| ==> s[i] == c) && (forall j :: 0 <= j < i ==> s[j] != c)
  {
    if s == "" || s[0] == c then 0 else 1 + IndexOf(s[1..], c)
  }

  /** The first equality sign. */
  predicate SignAt(s: string, n: int) { 0 <= n < |s| && s[n] == '=' && forall i :: 0 <= i < n ==> s[i] != '=' }

  /** `v` stands in the text at `i`. */
  predicate OccursAt(text: string, v: string, i: int) {
    0 <= i && i + |v| <= |text| && text[i..i + |v|] == v
  }

  /** `str.find(v, start)`: the first occurrence at or after `start`. */
  function Find(text: string, v: string, start: nat): (r: Option<nat>)
    ensures r.Some? ==> start <= r.value && OccursAt(text, v, r.value)
    ensures r.Some? ==> forall i :: start <= i < r.value ==> !OccursAt(text, v, i)
    ensures r.None? ==> forall i :: start <= i ==> !OccursAt(text, v, i)
    decreases |text| - start
  {
    if start + |v| > |text| then None
    else if text[start..start + |v|] == v then Some(start)
    else Find(text, v, start + 1)
  }

  function CountNewlines(s: string): nat {
    if s == "" then 0 else (if s[0] == '\n' then 1 else 0) + CountNewlines(s[1..])
  }

  lemma {:induction false} CountAppend(a: string, b: string)
    ensures CountNewlines(a + b) == CountNewlines(a) + CountNewlines(b)
  {
    if a == "" {
      assert a + b == b;
    } else {
      CountAppend(a[1..], b);
      assert (a + b)[1..] == a[1..] + b;
    }
  }

  lemma {:induction false} NoNewlineCount(s: string)
    requires !Contains(s, '\n')
    ensures CountNewlines(s) == 0
  {
    if s != "" { NoNewlineCount(s[1..]); }
  }

  // ---- Line splitting ----

  lemma PiecesConsBreak(l: string, c: char, rest: string)
    requires NoBreak(l) && IsBreak(c) && (c == '\r' && rest != "" ==> rest[0] != '\n')
    ensures Pieces(l + [c] + rest) == [Piece(l, [c])] + Pieces(rest)
  {
    var s := l + [c] + rest;
    assert s[..|l|] == l && s[|l|] == c;
    assert forall j :: 0 <= j < |l| ==> s[j] == l[j];
    assert rest != "" ==> s[|l| + 1] == rest[0];
    assert BreakAt(s) == |l|;
    assert s[|l|..|l| + 1] == [c] && s[|l| + 1..] == rest;
  }

  lemma PiecesCons(l: string, rest: string)
    requires NoBreak(l)
    ensures Pieces(l + "\n" + rest) == [Piece(l, "\n")] + Pieces(rest)
  {
    PiecesConsBreak(l, '\n', rest);
    assert ['\n'] == "\n";
  }

  function Newlined(ls: seq<string>): seq<Piece> {
    seq(|ls|, i requires 0 <= i < |ls| => Piece(ls[i], "\n"))
  }

  lemma {:induction false} PiecesTerminated(ls: seq<string>, rest: string)
    requires AllNoBreak(ls)
    ensures Pieces(Terminated(ls) + rest) == Newlined(ls) + Pieces(rest)
  {
    if ls == [] {
      assert Terminated(ls) + rest == rest;
    } else {
      var tail := Terminated(ls[1..]) + rest;
      calc {
        Pieces(Terminated(ls) + rest);
        { assert Terminated(ls) + rest == ls[0] + "\n" + tail; }
        Pieces(ls[0] + "\n" + tail);
        { PiecesCons(ls[0], tail); }
        [Piece(ls[0], "\n")] + Pieces(tail);
        { PiecesTerminated(ls[1..], rest); }
        [Piece(ls[0], "\n")] + (Newlined(ls[1..]) + Pieces(rest));
        { assert Newlined(ls) == [Piece(ls[0], "\n")] + Newlined(ls[1..]); }
        Newlined(ls) + Pieces(rest);
      }
    }
  }

  lemma BodiesAppend(a: seq<Piece>, b: seq<Piece>)
    ensures Bodies(a + b) == Bodies(a) + Bodies(b)
  {}

  lemma BodiesNewlined(ls: seq<string>)
    ensures Bodies(Newlined(ls)) == ls
  {}

  /** Lines written out one per row are read back unchanged, whatever follows them. */
  lemma LinesTerminatedThen(ls: seq<string>, rest: string)
    requires AllNoBreak(ls)
    ensures Lines(Terminated(ls) + rest) == ls + Lines(rest)
  {
    hide Pieces, Terminated, Bodies, Newlined, AllNoBreak;
    PiecesTerminated(ls, rest);
    BodiesAppend(Newlined(ls), Pieces(rest));
    BodiesNewlined(ls);
  }

  lemma LinesTerminated(ls: seq<string>)
    requires AllNoBreak(ls)
    ensures Lines(Terminated(ls)) == ls
  {
    hide Lines, Terminated, AllNoBreak;
    LinesTerminatedThen(ls, "");
    assert Lines("") == [] by { EmptyHasNoLines(); }
    assert Terminated(ls) + "" == Terminated(ls);
  }

  lemma EmptyHasNoLines()
    ensures Lines("") == []
  {}

  lemma {:induction false} PiecesHaveNoBreak(s: string)
    ensures forall p <- Pieces(s) :: NoBreak(p.body)
    decreases |s|
  {
    hide NoBreak;
    if s != "" {
      var i := BreakAt(s);
      NoBreakBefore(s);
      if i < |s| {
        var e := if s[i] == '\r' && i + 1 < |s| && s[i + 1] == '\n' then i + 2 else i + 1;
        PiecesHaveNoBreak(s[e..]);
      } else {
        assert s[..i] == s;
      }
    }
  }

  lemma NoBreakBefore(s: string)
    ensures NoBreak(s[..BreakAt(s)])
  {
    hide IsBreak;
  }

  lemma LinesHaveNoBreak(s: string)
    ensures AllNoBreak(Lines(s))
  {
    PiecesHaveNoBreak(s);
    hide Pieces, NoBreak;
    forall i | 0 <= i < |Pieces(s)| ensures NoBreak(Lines(s)[i]) { assert Pieces(s)[i] in Pieces(s); }
  }

  // ---- Line splitting, part by part ----

  predicate IsEnding(e: string) { e == "\r\n" || (|e| == 1 && IsBreak(e[0])) }

  /** Nothing, or text that ends its last line. */
  predicate Ended(x: string) { x == "" || x[|x| - 1] == '\n' }

  lemma PieceSplits(p: Piece, rest: string)
    requires NoBreak(p.body) && IsEnding(p.ending) && (p.ending == "\r" ==> !("\n" <= rest))
    ensures Pieces(p.Whole() + rest) == [p] + Pieces(rest)
  {
    var s, n := p.Whole() + rest, |p.body|;
    assert forall j :: 0 <= j < n ==> s[j] == p.body[j];
    assert s[n] == p.ending[0];
    assert BreakAt(s) == n;
    assert s[..n] == p.body && s[n..n + |p.ending|] == p.ending && s[n + |p.ending|..] == rest;
    if |p.ending| == 1 && n + 1 < |s| { assert s[n + 1] == rest[0]; }
    if |p.ending| == 2 { assert s[n + 1] == p.ending[1]; }
  }

  lemma CutInThree(s: string, i: nat, e: nat)
    requires i <= e <= |s|
    ensures s == s[..i] + s[i..e] + s[e..]
  {}

  lemma FirstPiece(s: string) returns (p: Piece, rest: string)
    requires s != "" && BreakAt(s) < |s|
    ensures Pieces(s) == [p] + Pieces(rest) && s == p.Whole() + rest && |rest| < |s|
    ensures p.body == s[..BreakAt(s)]
    ensures NoBreak(p.body) && IsEnding(p.ending) && (p.ending == "\r" ==> !("\n" <= rest))
  {
    hide IsEnding, IsBreak, BreakAt;
    var i := BreakAt(s);
    var e := if s[i] == '\r' && i + 1 < |s| && s[i + 1] == '\n' then i + 2 else i + 1;
    p, rest := Piece(s[..i], s[i..e]), s[e..];
    EndingOf(s, i, e);
    CutInThree(s, i, e);
  }

  lemma EndingOf(s: string, i: nat, e: nat)
    requires i < |s| && IsBreak(s[i])
    requires e == if s[i] == '\r' && i + 1 < |s| && s[i + 1] == '\n' then i + 2 else i + 1
    ensures IsEnding(s[i..e]) && (s[i..e] == "\r" ==> !("\n" <= s[e..]))
  {
    if e == i + 2 { assert s[i..e] == "\r\n"; }
  }

  lemma EndedPiece(p: Piece, rest: string, y: string)
    requires IsEnding(p.ending) && Ended(p.Whole() + rest) && (p.ending == "\r" ==> !("\n" <= rest))
    ensures Ended(rest) && (p.ending == "\r" ==> !("\n" <= rest + y))
  {
    var x := p.Whole() + rest;
    if rest == "" {
      assert x == p.Whole() && x[|x| - 1] == p.ending[|p.ending| - 1];
    } else {
      assert x[|x| - 1] == rest[|rest| - 1];
      assert (rest + y)[0] == rest[0];
      assert rest[0] == '\n' ==> "\n" <= rest;
    }
  }

  lemma {:induction false} PiecesJoin(x: string, y: string)
    requires Ended(x)
    ensures Pieces(x + y) == Pieces(x) + Pieces(y)
    decreases |x|
  {
    hide IsEnding, NoBreak;
    if x == "" {
      assert x + y == y && Pieces(x) == [];
    } else {
      NewlineIsBreak(x);
      var p, rest := FirstPiece(x);
      EndedPiece(p, rest, y);
      PiecesJoin(rest, y);
      Regroup(p.Whole(), rest, y);
      PieceSplits(p, rest + y);
      Regroup([p], Pieces(rest), Pieces(y));
    }
  }

  lemma NewlineIsBreak(x: string)
    requires x != "" && Ended(x)
    ensures BreakAt(x) < |x|
  {
    assert IsBreak(x[|x| - 1]);
  }

  lemma LinesJoin(x: string, y: string)
    requires Ended(x)
    ensures Lines(x + y) == Lines(x) + Lines(y)
  {
    PiecesJoin(x, y);
    hide Pieces, Bodies;
    BodiesAppend(Pieces(x), Pieces(y));
  }

  lemma Regroup<T>(a: seq<T>, b: seq<T>, c: seq<T>)
    ensures a + (b + c) == a + b + c
  {}

  lemma {:induction false} TerminatedAppend(a: seq<string>, b: seq<string>)
    ensures Terminated(a + b) == Terminated(a) + Terminated(b)
  {
    if a == [] {
      assert a + b == b;
    } else {
      TerminatedAppend(a[1..], b);
      assert (a + b)[1..] == a[1..] + b;
      Regroup(a[0] + "\n", Terminated(a[1..]), Terminated(b));
    }
  }

  lemma {:induction false} ConcatAppend(a: seq<string>, b: seq<string>)
    ensures Concat(a + b) == Concat(a) + Concat(b)
  {
    if a == [] {
      assert a + b == b;
    } else {
      ConcatAppend(a[1..], b);
      assert (a + b)[1..] == a[1..] + b;
      Regroup(a[0], Concat(a[1..]), Concat(b));
    }
  }

  lemma {:induction false} JoinTerminated(ls: seq<string>)
    requires ls != []
    ensures JoinLines(ls) + "\n" == Terminated(ls)
  {
    if |ls| > 1 {
      JoinTerminated(ls[1..]);
      assert Terminated(ls) == ls[0] + "\n" + (JoinLines(ls[1..]) + "\n");
    } else {
      assert Terminated(ls[1..]) == "";
    }
  }

  // ---- Trailing white space ----

  lemma {:induction false} RStripAppend(a: string, b: string)
    ensures RStrip(a + b) == if Blank(b) then RStrip(a) else a + RStrip(b)
  {
    if b == "" {
      assert a + b == a;
    } else if IsSpace(b[|b| - 1]) {
      RStripAppend(a, b[..|b| - 1]);
      assert (a + b)[..|a + b| - 1] == a + b[..|b| - 1];
    }
  }

  lemma {:induction false} RStripIsPrefix(s: string)
    ensures RStrip(s) <= s && RStrip(RStrip(s)) == RStrip(s)
    ensures forall i :: |RStrip(s)| <= i < |s| ==> IsSpace(s[i])
    ensures RStrip(s) != "" ==> !IsSpace(RStrip(s)[|RStrip(s)| - 1])
  {
    if s != "" && IsSpace(s[|s| - 1]) {
      RStripIsPrefix(s[..|s| - 1]);
    }
  }

  lemma {:induction false} LStripIsSuffix(s: string)
    ensures var n := |s| - |LStrip(s)|;
            && 0 <= n && LStrip(s) == s[n..] && (forall i :: 0 <= i < n ==> IsSpace(s[i]))
            && (LStrip(s) != "" ==> !IsSpace(LStrip(s)[0]))
  {
    if s != "" && IsSpace(s[0]) {
      LStripIsSuffix(s[1..]);
      var n := |s[1..]| - |LStrip(s[1..])|;
      assert s[1..][n..] == s[n + 1..];
      assert forall i :: 0 < i < n + 1 ==> s[i] == s[1..][i - 1];
    } else {
      assert s[0..] == s;
    }
  }

  /** Text between white space that begins and ends in none: stripping gives it back. */
  lemma StripIs(a: string, s: string, b: string)
    requires (forall i :: 0 <= i < |a| ==> IsSpace(a[i])) && forall i :: 0 <= i < |b| ==> IsSpace(b[i])
    requires s != "" ==> !IsSpace(s[0]) && !IsSpace(s[|s| - 1])
    ensures Strip(a + s + b) == s
  {
    var t := a + s + b;
    var r := RStrip(t);
    RStripIsPrefix(t);
    assert forall i :: |a| + |s| <= i < |t| ==> t[i] == b[i - |a| - |s|];
    if s != "" {
      assert t[|a| + |s| - 1] == s[|s| - 1];
      assert r == a + s;
    } else {
      assert forall i :: 0 <= i < |t| ==> IsSpace(t[i]);
      assert r == "";
    }
    LStripIsSuffix(r);
    var n := |r| - |LStrip(r)|;
    if s != "" {
      assert r[|a|] == s[0] && n <= |a|;
      assert forall i :: 0 <= i < |a| ==> r[i] == a[i];
      assert r[n..] == s;
    }
  }

  /** The text-level `join` and `rstrip` agree with the line-level `TrimTail`. */
  lemma {:induction false} RStripJoin(ls: seq<string>)
    requires ls != []
    ensures RStrip(JoinLines(ls)) + "\n" == Terminated(TrimTail(ls))
  {
    var n := |ls| - 1;
    if n == 0 {
      assert TrimTail(ls) == [RStrip(ls[0])];
      JoinTerminated(TrimTail(ls));
    } else {
      var init := ls[..n];
      JoinSnoc(ls);
      RStripAppend(JoinLines(init) + "\n", ls[n]);
      if Blank(ls[n]) {
        assert Blank("\n") by { assert RStrip("\n"[..0]) == ""; }
        RStripAppend(JoinLines(init), "\n");
        RStripJoin(init);
      } else {
        JoinTerminated(init);
        TerminatedAppend(init, [RStrip(ls[n])]);
        JoinTerminated([RStrip(ls[n])]);
      }
    }
  }

  lemma {:induction false} JoinSnoc(ls: seq<string>)
    requires |ls| >= 2
    ensures JoinLines(ls) == JoinLines(ls[..|ls| - 1]) + "\n" + ls[|ls| - 1]
  {
    var n := |ls| - 1;
    if n == 1 {
      assert JoinLines(ls[1..]) == ls[1];
    } else {
      JoinSnoc(ls[1..]);
      assert ls[1..][..n - 1] == ls[..n][1..];
      assert JoinLines(ls[..n]) == ls[0] + "\n" + JoinLines(ls[1..][..n - 1]);
    }
  }

  lemma RStripTwice(s: string)
    ensures RStrip(RStrip(s)) == RStrip(s)
  {
    RStripIsPrefix(s);
  }

  lemma {:induction false} TrimTailShape(ls: seq<string>)
    requires ls != []
    ensures |TrimTail(ls)| <= |ls| && TrimTail(TrimTail(ls)) == TrimTail(ls)
    ensures var k := |TrimTail(ls)| - 1;
            TrimTail(ls)[..k] == ls[..k] && TrimTail(ls)[k] == RStrip(ls[k])
            && forall i :: k < i < |ls| ==> Blank(ls[i])
  {
    hide RStrip, IsSpace;
    var n := |ls| - 1;
    if n == 0 || !Blank(ls[n]) {
      RStripTwice(ls[n]);
      var t := TrimTail(ls);
      assert t[..n] == ls[..n];
      assert TrimTail(t) == t[..n] + [RStrip(t[n])];
    } else {
      TrimTailShape(ls[..n]);
      var k := |TrimTail(ls)| - 1;
      assert ls[..n][..k] == ls[..k];
    }
  }

  lemma TrimTailNoBreak(ls: seq<string>)
    requires ls != [] && AllNoBreak(ls)
    ensures AllNoBreak(TrimTail(ls))
  {
    TrimTailShape(ls);
    var t := TrimTail(ls);
    forall i | 0 <= i < |t|
      ensures NoBreak(t[i])
    {
      if i < |t| - 1 {
        assert t[..|t| - 1][i] == ls[i];
      } else {
        RStripIsPrefix(ls[i]);
      }
    }
  }

  // ---- Words ----

  lemma {:induction false} WordsCons(w: string, rest: string)
    requires w != "" && NoSpace(w) && (rest == "" || IsSpace(rest[0]))
    ensures Words(w + rest) == [w] + Words(rest)
  {
    var s := w + rest;
    assert forall j :: 0 <= j < |w| ==> s[j] == w[j];
    assert rest != "" ==> s[|w|] == rest[0];
    assert SpaceAt(s) == |w|;
    assert s[..|w|] == w && s[|w|..] == rest;
  }

  lemma {:induction false} WordsOfSpaces(s: string)
    requires forall i :: 0 <= i < |s| ==> IsSpace(s[i])
    ensures Words(s) == []
  {
    if s != "" { WordsOfSpaces(s[1..]); }
  }

  /** White space keeps words apart. */
  lemma {:induction false} WordsApart(a: string, c: char, b: string)
    requires IsSpace(c)
    ensures Words(a + ([c] + b)) == Words(a) + Words(b)
    decreases |a|
  {
    if a == "" {
      assert a + ([c] + b) == [c] + b && ([c] + b)[1..] == b;
    } else if IsSpace(a[0]) {
      WordsApart(a[1..], c, b);
      assert (a + ([c] + b))[1..] == a[1..] + ([c] + b);
    } else {
      var i := SpaceAt(a);
      var w, rest := a[..i], a[i..] + ([c] + b);
      WordsApart(a[i..], c, b);
      assert a + ([c] + b) == w + rest;
      assert rest[0] == if i < |a| then a[i] else c;
      assert w[0] == a[0];
      WordsCons(w, rest);
      Regroup([w], Words(a[i..]), Words(b));
    }
  }

  /** Trailing white space carries no word. */
  lemma {:induction false} WordsIgnoreTail(s: string, t: string)
    requires forall i :: 0 <= i < |t| ==> IsSpace(t[i])
    ensures Words(s + t) == Words(s)
    decreases |s|
  {
    if s == "" {
      assert s + t == t;
      WordsOfSpaces(t);
    } else if IsSpace(s[0]) {
      WordsIgnoreTail(s[1..], t);
      assert (s + t)[1..] == s[1..] + t;
    } else {
      var i := SpaceAt(s);
      var w := s[..i];
      assert w[0] == s[0];
      WordsIgnoreTail(s[i..], t);
      assert s + t == w + (s[i..] + t);
      WordsCons(w, s[i..] + t);
    }
  }

  lemma WordsRStrip(s: string)
    ensures Words(RStrip(s)) == Words(s)
  {
    RStripIsPrefix(s);
    var t := s[|RStrip(s)|..];
    assert s == RStrip(s) + t;
    WordsIgnoreTail(RStrip(s), t);
  }

  // ---- Order ----

  /** Strictly before in code-point order. */
  predicate Before(a: string, b: string) {
    if b == "" then false else if a == "" then true
    else a[0] < b[0] || (a[0] == b[0] && Before(a[1..], b[1..]))
  }

  /** The shorter of the two is a beginning of the other, or the first characters to differ decide. */
  lemma {:induction false} BeforeIs(a: string, b: string)
    ensures Before(a, b) <==> (a < b || exists n :: FirstDifference(a, b, n) && a[n] < b[n])
  {
    if b != "" && a != "" {
      if a[0] == b[0] {
        BeforeIs(a[1..], b[1..]);
        assert a == [a[0]] + a[1..] && b == [b[0]] + b[1..];
        assert a < b <==> a[1..] < b[1..];
        forall n | FirstDifference(a, b, n) ensures n > 0 && FirstDifference(a[1..], b[1..], n - 1) {
          assert n > 0;
          assert a[1..][..n - 1] == a[..n][1..] && b[1..][..n - 1] == b[..n][1..];
        }
        forall n | FirstDifference(a[1..], b[1..], n) ensures FirstDifference(a, b, n + 1) {
          assert a[..n + 1] == [a[0]] + a[1..][..n] && b[..n + 1] == [b[0]] + b[1..][..n];
        }
      } else {
        assert FirstDifference(a, b, 0);
        forall n | FirstDifference(a, b, n) ensures n == 0 { SameStart(a, b, n); }
      }
    }
  }

  lemma SameStart(a: string, b: string, n: nat)
    requires n <= |a| && n <= |b| && a[..n] == b[..n]
    ensures n > 0 ==> a[0] == b[0]
  {
    if n > 0 { assert a[..n][0] == a[0] && b[..n][0] == b[0]; }
  }

  predicate FirstDifference(a: string, b: string, n: int) {
    0 <= n < |a| && n < |b| && a[..n] == b[..n] && a[n] != b[n]
  }

  lemma {:induction false} BeforeIsAsymmetric(a: string, b: string)
    requires Before(a, b)
    ensures !Before(b, a)
  {
    if a != "" && a[0] == b[0] { BeforeIsAsymmetric(a[1..], b[1..]); }
  }

  lemma {:induction false} NotBeforeIsTransitive(a: string, b: string, c: string)
    requires !Before(b, a) && !Before(c, b)
    ensures !Before(c, a)
  {
    if a != "" && b != "" && c != "" && a[0] == b[0] == c[0] { NotBeforeIsTransitive(a[1..], b[1..], c[1..]); }
  }
}
