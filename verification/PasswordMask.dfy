/** The password replacement of the transport and the reporter (`_redact_secret` in
    `remote_transport.py`, `_redact_runtime_message` in `remote.py`), as a mask on lines. */
module PasswordMask {
  import opened Text
  import opened EnvFormat
  import opened Redaction
  import opened StreamRedaction
  import opened ReporterLog

  const STAND_IN := "<redacted>"

  /** `str.replace` of a non-empty string. */
  function Swap(line: string, password: string): string
    requires password != ""
    decreases |line|
  {
    if line == "" then ""
    else if OccursAt(line, password, 0) then STAND_IN + Swap(line[|password|..], password)
    else [line[0]] + Swap(line[1..], password)
  }

  /** Without a password, or with an empty one, nothing is replaced. */
  function Censor(line: string, password: Option<string>): string {
    if password.None? || password.value == "" then line else Swap(line, password.value)
  }

  function Mask(password: Option<string>): string -> string { l => Censor(l, password) }

  ghost predicate Occurs(text: string, password: string) { exists i :: OccursAt(text, password, i) }

  // ---- Replacing makes no marker and no assignment ----

  /** Where no replacement shows there was none. */
  lemma {:induction false} PlainStart(line: string, password: string, n: nat)
    requires password != "" && n <= |Swap(line, password)|
    requires forall k :: 0 <= k < n ==> Swap(line, password)[k] != '<'
    ensures n <= |line| && Swap(line, password) == line[..n] + Swap(line[n..], password)
    decreases |line|
  {
    if n > 0 {
      var t, m := line[1..], n - 1;
      assert STAND_IN[0] == '<' && Swap(line, password)[0] != '<';
      assert Swap(line, password) == [line[0]] + Swap(t, password);
      forall k | 0 <= k < m ensures Swap(t, password)[k] != '<' {
        assert Swap(t, password)[k] == Swap(line, password)[k + 1];
      }
      PlainStart(t, password, m);
      assert t[m..] == line[n..] && [line[0]] + t[..m] == line[..n];
      Regroup([line[0]], t[..m], Swap(line[n..], password));
    } else {
      assert line[0..] == line;
    }
  }

  lemma MarkerIsPlain()
    ensures !Contains(MARKER, '<')
  {
    assert MARKER == ['#', ' ', 'd', 'o', 'k', 'p', 'l', 'o', 'y', '-', 'w', 'i', 'z', 'a', 'r', 'd', '-', 'e', 'n',
                      'v'];
  }

  lemma SwapMakesNoMarker(line: string, password: string)
    requires password != "" && IsMarker(Swap(line, password))
    ensures IsMarker(line)
  {
    MarkerIsPlain();
    PlainStart(line, password, |MARKER|);
  }

  lemma {:induction false} OthersAreKept(s: string, c: char)
    requires c != '_' && c in s
    ensures c in Replace(s, '_', "")
  {
    if s[0] != c { OthersAreKept(s[1..], c); }
  }

  /** The key of an assignment holds neither sign nor bracket. */
  lemma KeyIsPlain(alnum: AlnumTable, line: string)
    requires StreamAssignment(alnum, line)
    ensures !Contains(KeyOf(line), '<') && !Contains(KeyOf(line), '=') && Contains(line, '=')
  {
    assert !alnum('<') && !alnum('=');
    var k := KeyOf(line);
    if i :| 0 <= i < |k| && (k[i] == '<' || k[i] == '=') { OthersAreKept(k, k[i]); }
  }

  /** What reads as an assignment after the replacement was one before, up to its sign. */
  lemma AssignmentWasOne(alnum: AlnumTable, line: string, password: string)
    requires password != "" && StreamAssignment(alnum, Swap(line, password))
    ensures StreamAssignment(alnum, line) && KeyOf(line) == KeyOf(Swap(line, password))
    ensures var n := |KeyOf(line)| + 1;
            n <= |line| && Swap(line, password) == line[..n] + Swap(line[n..], password)
  {
    var s := Swap(line, password);
    var k := KeyOf(s);
    var n := |k|;
    KeyIsPlain(alnum, s);
    assert n < |s| && s[n] == '=' && s[..n] == k;
    forall i | 0 <= i < n + 1 ensures s[i] != '<' { assert i < n ==> s[i] == k[i]; }
    PlainStart(line, password, n + 1);
    hide Swap;
    SameStart(line, s, n);
    SameKeySameKind(alnum, line, s, n);
  }

  lemma SameStart(a: string, b: string, n: nat)
    requires n < |a| && n < |b| && a[..n + 1] == b[..n + 1]
    ensures forall i :: 0 <= i <= n ==> a[i] == b[i]
  {
    assert forall i :: 0 <= i <= n ==> a[i] == a[..n + 1][i] && b[i] == b[..n + 1][i];
  }

  lemma SameKeySameKind(alnum: AlnumTable, a: string, b: string, n: nat)
    requires StreamAssignment(alnum, b) && n == |KeyOf(b)| < |b| && n < |a| && forall i :: 0 <= i <= n ==> a[i] == b[i]
    ensures StreamAssignment(alnum, a) && KeyOf(a) == KeyOf(b)
  {
    KeyIsPlain(alnum, b);
    var k := KeyOf(b);
    assert b[n] == '=' && forall i :: 0 <= i < n ==> a[i] == k[i] != '=';
    assert IndexOf(a, '=') == n;
    assert KeyOf(a) == k;
  }

  lemma MaskKeepsStarts(alnum: AlnumTable, password: Option<string>)
    ensures KeepsStarts(alnum, Mask(password))
  {
    if password.Some? && password.value != "" {
      forall l ensures IsMarker(Swap(l, password.value)) ==> IsMarker(l) {
        if IsMarker(Swap(l, password.value)) { SwapMakesNoMarker(l, password.value); }
      }
      forall l | StreamAssignment(alnum, Swap(l, password.value))
        ensures StreamAssignment(alnum, l) && KeyOf(Swap(l, password.value)) == KeyOf(l)
      {
        AssignmentWasOne(alnum, l, password.value);
      }
    }
    hide StreamAssignment, IsMarker, KeyOf, Swap;
  }

  // ---- What the reporter hides once more ----

  lemma OccursLater(line: string, password: string, i: nat)
    requires line != "" && OccursAt(line[1..], password, i)
    ensures OccursAt(line, password, i + 1)
  {
    assert line[i + 1..i + 1 + |password|] == line[1..][i..i + |password|];
  }

  lemma {:induction false} SwapNothing(line: string, password: string)
    requires password != "" && forall i :: !OccursAt(line, password, i)
    ensures Swap(line, password) == line
    decreases |line|
  {
    if line != "" {
      forall i ensures !OccursAt(line[1..], password, i) {
        if OccursAt(line[1..], password, i) { OccursLater(line, password, i); }
      }
      SwapNothing(line[1..], password);
    }
  }

  lemma {:induction false} SwapShows(line: string, password: string, i: nat)
    requires password != "" && OccursAt(line, password, i)
    ensures 'r' in Swap(line, password)
    decreases |line|
  {
    if OccursAt(line, password, 0) {
      assert STAND_IN[1] == 'r';
      assert Swap(line, password)[1] == 'r';
    } else {
      assert line[1..][i - 1..i - 1 + |password|] == line[i..i + |password|];
      SwapShows(line[1..], password, i - 1);
    }
  }

  lemma HiddenLetters()
    ensures 'r' !in REDACTED && '0' !in REDACTED && '=' !in REDACTED
  {
    assert REDACTED == ['<', 'R', 'E', 'D', 'A', 'C', 'T', 'E', 'D', '>'];
  }

  lemma MarkerLetters()
    ensures IsLine(MARKER) && forall c <- MARKER :: c == '#' || c == ' ' || c == '-' || 'a' <= c <= 'z'
  {
    var m := MARKER;
    assert m == ['#', ' ', 'd', 'o', 'k', 'p', 'l', 'o', 'y', '-', 'w', 'i', 'z', 'a', 'r', 'd', '-', 'e', 'n', 'v'];
  }

  lemma HiddenIsNoMarker(c: char)
    requires c in REDACTED
    ensures c !in MARKER && c != '0' && c != '='
  {
    assert REDACTED == ['<', 'R', 'E', 'D', 'A', 'C', 'T', 'E', 'D', '>'];
    MarkerLetters();
  }

  lemma LetterAt(text: string, password: string, i: int, k: nat)
    requires OccursAt(text, password, i) && k < |password|
    ensures text[i + k] == password[k]
  {
    assert text[i..i + |password|][k] == text[i + k];
  }

  lemma NoLetterNoOccurrence(text: string, password: string)
    requires password != "" && password[0] !in text
    ensures !Occurs(text, password)
  {
    if i :| OccursAt(text, password, i) { LetterAt(text, password, i, 0); }
  }

  lemma NothingToSwap(text: string, password: string)
    requires password != "" && (password[0] !in text || !Occurs(text, password))
    ensures Swap(text, password) == text
  {
    if password[0] !in text { NoLetterNoOccurrence(text, password); }
    SwapNothing(text, password);
  }

  lemma InsideChanges(password: string)
    requires password != "" && Occurs(REDACTED, password)
    ensures password[0] in REDACTED && Swap(REDACTED, password) != REDACTED
  {
    var i :| OccursAt(REDACTED, password, i);
    LetterAt(REDACTED, password, i, 0);
    SwapShows(REDACTED, password, i);
    HiddenLetters();
  }

  lemma BehindDiffers(head: string, x: string, y: string)
    requires x != y
    ensures head + x != head + y
  {
    assert (head + x)[|head|..] == x && (head + y)[|head|..] == y;
  }

  /** A password within the stand-in of a hidden value changes it, below a marker that stays. */
  lemma InsideUndoes(alnum: AlnumTable, password: string)
    requires password != "" && Occurs(REDACTED, password)
    ensures Undoes(alnum, Mask(Some(password)), MARKER, "0=")
  {
    hide StreamAssignment, IsLine, Swap, Occurs, Hide, KeyOf;
    InsideChanges(password);
    HiddenIsNoMarker(password[0]);
    MarkerLetters();
    NothingToSwap(MARKER, password);
    ZeroKey(alnum);
    SwapBehind("0=", REDACTED, password);
    var hidden := Swap(REDACTED, password);
    ZeroLine(alnum, hidden);
    BehindDiffers("0=", hidden, REDACTED);
  }

  lemma ZeroLine(alnum: AlnumTable, value: string)
    ensures StreamAssignment(alnum, "0=" + value) && KeyOf("0=" + value) == "0"
  {
    var l := "0=" + value;
    assert l[0] == '0' && l[1] == '=' && IndexOf(l, '=') == 1 && alnum('0');
    assert "0"[1..] == "" && Replace("0", '_', "") == "0";
  }

  lemma ZeroKey(alnum: AlnumTable)
    ensures StreamAssignment(alnum, "0=") && Hide("0=") == "0=" + REDACTED
  {
    ZeroLine(alnum, "");
    assert "0=" + "" == "0=" && "0" + "=" == "0=";
  }

  lemma {:induction false} SwapBehind(head: string, rest: string, password: string)
    requires password != "" && password[0] !in head
    ensures Swap(head + rest, password) == head + Swap(rest, password)
  {
    if head == "" {
      assert head + rest == rest;
    } else {
      var t := head + rest;
      assert !OccursAt(t, password, 0) by {
        if OccursAt(t, password, 0) { LetterAt(t, password, 0, 0); }
      }
      assert t[1..] == head[1..] + rest;
      SwapBehind(head[1..], rest, password);
    }
  }

  lemma KeyOfHidden(alnum: AlnumTable, l: string)
    requires StreamAssignment(alnum, l)
    ensures var h, n := Hide(l), |KeyOf(Hide(l))| + 1; n <= |h| && h[n..] == REDACTED
  {
    var k, h := KeyOf(l), Hide(l);
    KeyIsPlain(alnum, l);
    assert h[|k|] == '=' && forall i :: 0 <= i < |k| ==> h[i] == k[i] != '=';
    assert IndexOf(h, '=') == |k| && KeyOf(h) == k;
  }

  lemma UndoesInside(alnum: AlnumTable, password: string, m: string, l: string)
    requires password != "" && Undoes(alnum, Mask(Some(password)), m, l)
    ensures Occurs(REDACTED, password)
  {
    hide StreamAssignment, IsMarker, IsLine, KeyOf, Hide, Swap, Occurs;
    var h := Hide(l);
    KeyOfHidden(alnum, l);
    AssignmentWasOne(alnum, h, password);
    if !Occurs(REDACTED, password) { NothingToSwap(REDACTED, password); }
  }

  /** Left to its redaction state, the reporter changes no logged line exactly when no password is set or
      the password does not occur in the stand-in of hidden values. */
  lemma PasswordHidesNothingMoreExactly(alnum: AlnumTable, password: Option<string>)
    ensures PrintsAsLogged(alnum, Mask(password), l => l)
            <==> password.None? || password.value == "" || !Occurs(REDACTED, password.value)
  {
    MaskKeepsStarts(alnum, password);
    HidesNothingMoreExactly(alnum, Mask(password));
    hide PrintsAsLogged, KeepsStarts, Undoes, Occurs;
    if password.None? || password.value == "" {
      forall m, l ensures !Undoes(alnum, Mask(password), m, l) { NothingUndoes(alnum, password, m, l); }
    } else if Occurs(REDACTED, password.value) {
      InsideUndoes(alnum, password.value);
    } else {
      forall m, l ensures !Undoes(alnum, Mask(password), m, l) {
        if Undoes(alnum, Mask(password), m, l) { UndoesInside(alnum, password.value, m, l); }
      }
    }
  }

  lemma NothingUndoes(alnum: AlnumTable, password: Option<string>, m: string, l: string)
    requires password.None? || password.value == ""
    ensures !Undoes(alnum, Mask(password), m, l)
  {
    hide StreamAssignment, IsMarker, IsLine, Hide;
  }

  // ---- What the replacement leaves for a second one ----

  /** One continues the other. */
  predicate Agree(a: string, b: string) { a <= b || b <= a }

  /** The password can begin within a stand-in. */
  predicate BeginsInside(password: string) {
    exists k :: 0 <= k < |STAND_IN| && Agree(password, STAND_IN[k..])
  }

  /** The password can begin before a stand-in and reach into it, and what is left of it before the
      replaced password does not make an earlier occurrence together with it. */
  predicate ReachesInside(password: string) {
    exists j :: 0 < j < |password| && Agree(password[j..], STAND_IN) && FirstAt(password[..j] + password, password, j)
  }

  predicate FirstAt(text: string, password: string, j: nat) {
    forall i :: 0 <= i < j ==> !OccursAt(text, password, i)
  }

  /** Replacing the password can bring it about again. */
  predicate Reappears(password: string) {
    password != STAND_IN && (BeginsInside(password) || ReachesInside(password))
  }

  lemma Part(text: string, a: nat, b: nat, password: string, i: int)
    requires a <= b <= |text|
    ensures OccursAt(text[a..b], password, i) ==> OccursAt(text, password, a + i)
    ensures OccursAt(text, password, a + i) && 0 <= i && a + i + |password| <= b ==> OccursAt(text[a..b], password, i)
  {
    if 0 <= i && a + i + |password| <= b {
      var t, e := text[a..b], i + |password|;
      assert forall k :: i <= k < e ==> t[k] == text[a + k];
      assert t[i..e] == text[a + i..a + e];
    }
  }

  /** Unless it reappears, what comes out of the replacement is free of the password. */
  lemma {:induction false} SwapIsFree(u: string, line: string, password: string, i: int)
    requires password != "" && !BeginsInside(password) && !ReachesInside(password)
    requires FirstAt(u + line, password, |u|)
    ensures !OccursAt(u + Swap(line, password), password, i)
    decreases |line|, 1
  {
    hide BeginsInside, ReachesInside;
    if i < 0 {
    } else if line == "" {
      assert u + line == u && Swap(line, password) == "" && u + "" == u;
    } else if OccursAt(line, password, 0) {
      FreeAround(u, line, password, i);
    } else {
      OneCharOn(u, line, password);
      SwapIsFree(u + [line[0]], line[1..], password, i);
    }
  }

  lemma OneCharOn(u: string, line: string, password: string)
    requires password != "" && line != "" && !OccursAt(line, password, 0) && FirstAt(u + line, password, |u|)
    ensures var v := u + [line[0]];
            FirstAt(v + line[1..], password, |v|) && u + Swap(line, password) == v + Swap(line[1..], password)
  {
    assert Swap(line, password) == [line[0]] + Swap(line[1..], password);
    Regroup(u, [line[0]], Swap(line[1..], password));
    Regroup(u, [line[0]], line[1..]);
    assert [line[0]] + line[1..] == line;
    hide Swap;
    NotHere(u, line, password);
  }

  lemma NotHere(u: string, line: string, password: string)
    requires !OccursAt(line, password, 0) && FirstAt(u + line, password, |u|)
    ensures FirstAt(u + line, password, |u| + 1)
  {
    assert (u + line)[|u|..|u + line|] == line;
    Part(u + line, |u|, |u + line|, password, 0);
    hide OccursAt;
  }

  lemma FreeAround(u: string, line: string, password: string, i: nat)
    requires password != "" && !BeginsInside(password) && !ReachesInside(password)
    requires FirstAt(u + line, password, |u|) && OccursAt(line, password, 0)
    ensures !OccursAt(u + Swap(line, password), password, i)
    decreases |line|, 0
  {
    hide BeginsInside, ReachesInside, OccursAt, FirstAt;
    SwapHere(line, password);
    var rest := Swap(line[|password|..], password);
    SwapIsFree("", line[|password|..], password, i - |u| - |STAND_IN|) by {
      assert FirstAt("" + line[|password|..], password, 0) by { NothingBefore(line[|password|..], password); }
    }
    if OccursAt(u + (STAND_IN + rest), password, i) { SomewhereAround(u, line, password, i, rest); }
  }

  lemma NothingBefore(text: string, password: string)
    ensures FirstAt("" + text, password, 0)
  {}

  lemma SwapHere(line: string, password: string)
    requires password != "" && OccursAt(line, password, 0)
    ensures |password| <= |line| && Swap(line, password) == STAND_IN + Swap(line[|password|..], password)
  {}

  /** Where an occurrence can be: behind the stand-in, within it, before it, or across its beginning. */
  lemma SomewhereAround(u: string, line: string, password: string, i: nat, rest: string)
    requires password != "" && FirstAt(u + line, password, |u|) && OccursAt(line, password, 0)
    requires OccursAt(u + (STAND_IN + rest), password, i)
    ensures BeginsInside(password) || ReachesInside(password) || OccursAt("" + rest, password, i - |u| - |STAND_IN|)
  {
    hide BeginsInside, ReachesInside;
    var t, n, d := u + (STAND_IN + rest), |u|, |STAND_IN|;
    if i >= n + d {
      assert t[n + d..|t|] == "" + rest;
      Part(t, n + d, |t|, password, i - n - d);
    } else if i >= n {
      assert t[n..|t|] == STAND_IN + rest;
      Part(t, n, |t|, password, i - n);
      Within(password, rest, i - n);
    } else if i + |password| <= n {
      assert u == (u + line)[0..n] && u == t[0..n];
      Part(t, 0, n, password, i);
      Part(u + line, 0, n, password, i);
      assert false;
    } else {
      Into(u, line, password, i, rest);
    }
  }

  lemma Within(password: string, rest: string, k: nat)
    requires password != "" && k < |STAND_IN| && OccursAt(STAND_IN + rest, password, k)
    ensures BeginsInside(password)
  {
    var x := STAND_IN[k..];
    FromWithin(STAND_IN, rest, password, k);
    AgreeWithStart(password, x, rest);
  }

  lemma FromWithin(a: string, b: string, password: string, k: nat)
    requires k <= |a| && OccursAt(a + b, password, k)
    ensures password <= a[k..] + b
  {
    var m := |password|;
    assert password == (a + b)[k..k + m];
    assert (a + b)[k..k + m] == (a[k..] + b)[..m];
  }

  lemma Into(u: string, line: string, password: string, i: nat, rest: string)
    requires password != "" && FirstAt(u + line, password, |u|) && OccursAt(line, password, 0)
    requires i < |u| < i + |password| && OccursAt(u + (STAND_IN + rest), password, i)
    ensures ReachesInside(password)
  {
    var n := |u|;
    var j := n - i;
    AcrossParts(u, STAND_IN + rest, password, i);
    AgreeWithStart(password[j..], STAND_IN, rest);
    EarlierPart(u, line, password, i);
    var end := n + |password|;
    forall k | 0 <= k < j ensures !OccursAt(password[..j] + password, password, k) {
      Part(u + line, i, end, password, k);
    }
  }

  lemma AcrossParts(a: string, b: string, password: string, i: nat)
    requires OccursAt(a + b, password, i) && i < |a| <= i + |password|
    ensures password[..|a| - i] == a[i..] && password[|a| - i..] == b[..i + |password| - |a|]
  {
    var t, j := a + b, |a| - i;
    assert password == t[i..i + |password|];
    assert t[i..i + |password|] == a[i..] + b[..i + |password| - |a|];
  }

  lemma EarlierPart(u: string, line: string, password: string, i: nat)
    requires OccursAt(line, password, 0) && i <= |u|
    ensures u[i..] + password == (u + line)[i..|u| + |password|]
  {
    assert password == line[..|password|];
  }

  lemma AgreeWithStart(x: string, a: string, b: string)
    requires x <= a + b
    ensures Agree(x, a)
  {
    if |x| <= |a| { assert x == a[..|x|]; } else { assert x[..|a|] == a; }
  }

  // ---- When replacing twice is replacing once ----

  lemma {:induction false} SwapLength(line: string, password: string)
    requires password != ""
    ensures |password| <= |STAND_IN| ==> |Swap(line, password)| >= |line|
    ensures |password| >= |STAND_IN| ==> |Swap(line, password)| <= |line|
    decreases |line|
  {
    if line != "" {
      SwapLength(line[if OccursAt(line, password, 0) then |password| else 1..], password);
    }
  }

  /** Any other password than the stand-in itself is no longer what it was. */
  lemma {:induction false} SwapChanges(line: string, password: string, i: nat)
    requires password != "" && password != STAND_IN && OccursAt(line, password, i)
    ensures Swap(line, password) != line
    decreases |line|
  {
    var s := Swap(line, password);
    if OccursAt(line, password, 0) {
      SwapLength(line[|password|..], password);
      if |password| == |STAND_IN| {
        assert s[..|STAND_IN|] == STAND_IN && line[..|password|] == line[0..|password|] == password;
      }
    } else {
      assert line[1..][i - 1..i - 1 + |password|] == line[i..i + |password|];
      SwapChanges(line[1..], password, i - 1);
      assert s[1..] == Swap(line[1..], password);
    }
  }

  lemma {:induction false} SwapStandIn(line: string)
    ensures Swap(line, STAND_IN) == line
    decreases |line|
  {
    if line != "" {
      if OccursAt(line, STAND_IN, 0) {
        SwapStandIn(line[|STAND_IN|..]);
        assert line == line[0..|STAND_IN|] + line[|STAND_IN|..];
      } else {
        SwapStandIn(line[1..]);
        assert line == [line[0]] + line[1..];
      }
    }
  }

  lemma {:induction false} SwapAfter(u: string, password: string, rest: string)
    requires password != "" && FirstAt(u + password, password, |u|)
    ensures Swap(u + (password + rest), password) == u + (STAND_IN + Swap(rest, password))
  {
    var t := u + (password + rest);
    if u == "" {
      assert t == password + rest && t[0..|password|] == password && t[|password|..] == rest;
    } else {
      var n := |u + password|;
      assert t[0..n] == u + password;
      Part(t, 0, n, password, 0);
      assert t[1..] == u[1..] + (password + rest);
      forall i | 0 <= i < |u| - 1 ensures !OccursAt(u[1..] + password, password, i) {
        assert (u + password)[1..n] == u[1..] + password;
        Part(u + password, 1, n, password, i);
      }
      SwapAfter(u[1..], password, rest);
    }
  }

  /** A digit keeps a line from ending in a carriage return. */
  function Closing(password: string): string
    requires password != ""
  {
    if password[|password| - 1] == '\r' then "0" else ""
  }

  lemma ShortIsFree(z: string, password: string)
    requires password != "" && |z| < |password| && (z == "" || z[|z| - 1] == password[|password| - 1])
    ensures Swap(z + Closing(password), password) == z + Closing(password)
  {
    var t := z + Closing(password);
    if i :| OccursAt(t, password, i) { LetterAt(t, password, i, |password| - 1); }
    SwapNothing(t, password);
  }

  lemma ClosedIsLine(a: string, password: string, z: string)
    requires password != "" && !Contains(password, '\n')
    requires (forall c <- a :: c in password) && forall c <- z :: c in password
    requires z == "" || z[|z| - 1] == password[|password| - 1]
    ensures IsLine(a + (password + (z + Closing(password))))
  {
    var t := a + (password + (z + Closing(password)));
    assert forall c <- t :: c in password || c == '0';
    assert forall c <- password :: c != '\n';
    assert forall k :: 0 <= k < |t| ==> t[k] in t;
    if z + Closing(password) == "" {
      assert t == a + password && t[|t| - 1] == password[|password| - 1];
    } else {
      var x := z + Closing(password);
      assert t[|t| - 1] == x[|x| - 1];
    }
  }

  lemma BeginningReappears(password: string, k: nat) returns (line: string)
    requires password != "" && password != STAND_IN && !Contains(password, '\n')
    requires k < |STAND_IN| && Agree(password, STAND_IN[k..])
    ensures IsLine(line) && Swap(Swap(line, password), password) != Swap(line, password)
  {
    var y := STAND_IN[k..];
    var z := if |password| <= |y| then "" else password[|y|..];
    var rest := z + Closing(password);
    line := "" + (password + rest);
    assert forall c <- z :: c in password;
    ClosedIsLine("", password, z);
    assert "" + password == password;
    SwapAfter("", password, rest);
    ShortIsFree(z, password);
    var s := Swap(line, password);
    assert s == STAND_IN + rest;
    assert s[k..k + |password|] == password by { SpansFrom(password, k, z, Closing(password)); }
    SwapChanges(s, password, k);
  }

  lemma SpansFrom(password: string, k: nat, z: string, more: string)
    requires k < |STAND_IN| && Agree(password, STAND_IN[k..])
    requires z == if |password| <= |STAND_IN[k..]| then "" else password[|STAND_IN[k..]|..]
    ensures var s := STAND_IN + (z + more); k + |password| <= |s| && s[k..k + |password|] == password
  {
    var y, s := STAND_IN[k..], STAND_IN + (z + more);
    if |password| <= |y| {
      assert password == y[..|password|] == s[k..k + |password|];
    } else {
      assert password == y + z;
      assert s[k..k + |password|] == y + z;
    }
  }

  lemma ReachingReappears(password: string, j: nat) returns (line: string)
    requires password != "" && password != STAND_IN && !Contains(password, '\n')
    requires 0 < j < |password| && Agree(password[j..], STAND_IN) && FirstAt(password[..j] + password, password, j)
    ensures IsLine(line) && Swap(Swap(line, password), password) != Swap(line, password)
  {
    hide IsLine, Swap, FirstAt, Contains, Agree;
    var q, w := password[..j], password[j..];
    var z := if |w| <= |STAND_IN| then "" else w[|STAND_IN|..];
    var rest := z + Closing(password);
    line := q + (password + rest);
    assert (forall c <- z :: c in password) && forall c <- q :: c in password;
    ClosedIsLine(q, password, z);
    SwapAfter(q, password, rest);
    ShortIsFree(z, password);
    SpansAcross(password, j, z, Closing(password));
    SwapChanges(Swap(line, password), password, 0);
  }

  lemma SpansAcross(password: string, j: nat, z: string, more: string)
    requires j <= |password| && Agree(password[j..], STAND_IN)
    requires z == if |password[j..]| <= |STAND_IN| then "" else password[j..][|STAND_IN|..]
    ensures OccursAt(password[..j] + (STAND_IN + (z + more)), password, 0)
  {
    var q, w, s := password[..j], password[j..], STAND_IN + (z + more);
    assert STAND_IN[0..] == STAND_IN;
    SpansFrom(w, 0, z, more);
    assert (q + s)[0..|password|] == q + s[0..|w|] == password;
  }

  lemma NoNewlineNoOccurrence(line: string, password: string)
    requires !Contains(line, '\n') && Contains(password, '\n')
    ensures !Occurs(line, password)
  {
    var k :| 0 <= k < |password| && password[k] == '\n';
    if i :| OccursAt(line, password, i) { LetterAt(line, password, i, k); }
  }

  /** Replacing a password twice is replacing it once, on lines, exactly when it has no line to occur in,
      is the stand-in itself, or does not reappear. */
  lemma SwapsOnceExactly(password: string)
    requires password != ""
    ensures MasksOnce(Mask(Some(password)))
            <==> Contains(password, '\n') || password == STAND_IN || !Reappears(password)
  {
    hide BeginsInside, ReachesInside, IsLine, Swap;
    if Contains(password, '\n') {
      forall l | IsLine(l) ensures Swap(Swap(l, password), password) == Swap(l, password) {
        LineHasNoNewline(l);
        NoNewlineNoOccurrence(l, password);
        SwapNothing(l, password);
      }
    } else if password == STAND_IN {
      forall l ensures Swap(Swap(l, password), password) == Swap(l, password) {
        SwapStandIn(l);
      }
    } else if !Reappears(password) {
      forall l ensures Swap(Swap(l, password), password) == Swap(l, password) {
        assert "" + l == l && "" + Swap(l, password) == Swap(l, password);
        forall i ensures !OccursAt(Swap(l, password), password, i) {
          SwapIsFree("", l, password, i);
        }
        SwapNothing(Swap(l, password), password);
      }
    } else {
      var line := ReappearsSomewhere(password);
      assert Mask(Some(password))(line) == Swap(line, password);
    }
  }

  lemma LineHasNoNewline(l: string)
    requires IsLine(l)
    ensures !Contains(l, '\n')
  {}

  lemma ReappearsSomewhere(password: string) returns (line: string)
    requires password != "" && !Contains(password, '\n') && Reappears(password)
    ensures IsLine(line) && Swap(Swap(line, password), password) != Swap(line, password)
  {
    hide IsLine, Swap, Agree;
    if BeginsInside(password) {
      var k :| 0 <= k < |STAND_IN| && Agree(password, STAND_IN[k..]);
      line := BeginningReappears(password, k);
    } else {
      var j :| 0 < j < |password| && Agree(password[j..], STAND_IN) && FirstAt(password[..j] + password, password, j);
      line := ReachingReappears(password, j);
    }
  }

  /** A reporter prints every logged line as logged, in every log, exactly when no password is set, or
      replacing it twice is replacing it once. */
  lemma PasswordPrintsAsLoggedExactly(alnum: AlnumTable, password: Option<string>)
    ensures PrintsAsLogged(alnum, Mask(password), Mask(password)) <==>
            || password.None? || password.value == "" || Contains(password.value, '\n')
            || password.value == STAND_IN || !Reappears(password.value)
  {
    MaskKeepsStarts(alnum, password);
    PrintsAsLoggedExactly(alnum, Mask(password));
    hide PrintsAsLogged, KeepsStarts, Reappears;
    if password.Some? && password.value != "" { SwapsOnceExactly(password.value); }
  }

  /** No password without a bracket and with another first letter than those of the stand-in reappears. */
  lemma PlainPasswordStays(password: string)
    requires password != "" && password[0] !in STAND_IN && '<' !in password
    ensures !Reappears(password)
  {
    assert STAND_IN[0] == '<';
    forall k | 0 <= k < |STAND_IN| ensures !Agree(password, STAND_IN[k..]) {
      assert STAND_IN[k..][0] == STAND_IN[k] && STAND_IN[k] in STAND_IN;
    }
    forall j | 0 < j < |password| ensures !Agree(password[j..], STAND_IN) {
      assert password[j..][0] == password[j] && password[j] in password;
    }
  }

  /** A word of the stand-in reappears; two brackets do not, though the stand-in begins with one. */
  lemma ReappearsExamples()
    ensures Reappears("red") && !Reappears("<<") && !Reappears("RED") && Occurs(REDACTED, "RED")
  {
    assert STAND_IN == ['<', 'r', 'e', 'd', 'a', 'c', 't', 'e', 'd', '>'];
    assert STAND_IN[1..4] == "red" && "red" <= STAND_IN[1..];
    assert Agree("red", STAND_IN[1..]);
    PlainPasswordStays("RED");
    assert OccursAt(REDACTED, "RED", 1) by { assert REDACTED[1..4] == "RED"; }
    TwoBracketsStay();
  }

  lemma TwoBracketsStay()
    ensures !Reappears("<<")
  {
    var p := "<<";
    assert STAND_IN == ['<', 'r', 'e', 'd', 'a', 'c', 't', 'e', 'd', '>'];
    forall k | 0 <= k < |STAND_IN| ensures !Agree(p, STAND_IN[k..]) {
      assert STAND_IN[k..][0] == STAND_IN[k];
      if k == 0 { assert STAND_IN[0..][1] == 'r'; }
    }
    assert OccursAt(p[..1] + p, p, 0) by { assert (p[..1] + p)[0..2] == p; }
  }
}
