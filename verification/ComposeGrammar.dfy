/** What counts as a required placeholder and as a service header in a compose text, written out on
    strings (`_REQUIRED_PLACEHOLDER_RE`, `_SERVICE_LINE_RE` and their use in `dokploy/env_spec.py`). */
module ComposeGrammar {
  import opened Text
  import opened EnvFormat
  import opened ComposeValidation

  // ---- Placeholders ----

  /** A dollar, a brace, an identifier, `:?` or `?`, anything up to the first closing brace. */
  ghost predicate IsPlaceholder(t: string, name: string) {
    IsIdentifier(name) && exists msg :: !Contains(msg, '}') && Spelled(t, name, msg)
  }

  predicate Spelled(t: string, name: string, msg: string) {
    t == "${" + name + ":?" + msg + "}" || t == "${" + name + "?" + msg + "}"
  }

  /** Names: a letter or underscore, then letters, digits and underscores, by code point. */
  lemma IdentifierIs(name: string)
    ensures IsIdentifier(name) <==>
            && name != "" && !(0x30 <= name[0] as int <= 0x39)
            && forall i :: 0 <= i < |name| ==>
                 var n := name[i] as int; 0x30 <= n <= 0x39 || 0x41 <= n <= 0x5A || n == 0x5F || 0x61 <= n <= 0x7A
  {}

  lemma {:induction false} RunIs(s: string)
    ensures var n := IdentifierRun(s);
            && (forall i :: 0 <= i < n ==> IsLetter(s[i]) || IsDigit(s[i]))
            && (n < |s| ==> !(IsLetter(s[n]) || IsDigit(s[n])))
  {
    if s != "" { RunIs(s[1..]); }
  }

  /** A name with something else behind it is the whole run. */
  lemma RunOfName(name: string, rest: string)
    requires IsIdentifier(name) && rest != "" && !(IsLetter(rest[0]) || IsDigit(rest[0]))
    ensures IdentifierRun(name + rest) == |name|
  {
    var t := name + rest;
    RunIs(t);
    assert forall i :: 0 <= i < |name| ==> t[i] == name[i];
    assert t[|name|] == rest[0];
  }

  /** From the question mark on. */
  function Behind(t: string, n: nat): string
    requires n <= |t|
  {
    if n < |t| && t[n] == ':' then t[n + 1..] else t[n..]
  }

  lemma PrefixFacts(s: string)
    requires PlaceholderPrefix(s).Some?
    ensures |s| >= 2 && s[..2] == "${"
    ensures var t := s[2..];
            var n := IdentifierRun(t);
            var u := Behind(t, n);
            && n > 0 && !IsDigit(t[0]) && u != "" && u[0] == '?' && 0 < IndexOf(u, '}') < |u|
            && PlaceholderPrefix(s) == Some((t[..n], |s| - |u| + IndexOf(u, '}') + 1))
  {
    hide IdentifierRun, IsDigit, IndexOf;
  }

  lemma RunIsName(t: string)
    requires var n := IdentifierRun(t); n > 0 && !IsDigit(t[0])
    ensures IsIdentifier(t[..IdentifierRun(t)])
  {
    RunIs(t);
    hide IdentifierRun;
  }

  lemma MatchIsPlaceholder(s: string)
    requires PlaceholderPrefix(s).Some?
    ensures var (name, len) := PlaceholderPrefix(s).value; len <= |s| && IsPlaceholder(s[..len], name)
  {
    hide PlaceholderPrefix, IdentifierRun, IsIdentifier, IsDigit, IndexOf, Contains;
    PrefixFacts(s);
    var t := s[2..];
    RunIsName(t);
    var n := IdentifierRun(t);
    var u := Behind(t, n);
    var close := IndexOf(u, '}');
    MessageEnds(u);
    PlaceholderText(s, t, u, n, close);
    assert Spelled(s[..|s| - |u| + close + 1], t[..n], u[1..close]);
  }

  lemma MessageEnds(u: string)
    requires 0 < IndexOf(u, '}') < |u|
    ensures !Contains(u[1..IndexOf(u, '}')], '}')
  {
    var msg := u[1..IndexOf(u, '}')];
    assert forall i :: 0 <= i < |msg| ==> msg[i] == u[i + 1];
  }

  lemma PlaceholderText(s: string, t: string, u: string, n: nat, close: nat)
    requires |s| >= 2 && s[..2] == "${" && t == s[2..] && n <= |t| && u == Behind(t, n)
    requires 0 < close < |u| && u[0] == '?' && u[close] == '}'
    ensures var len := |s| - |u| + close + 1; 0 <= len <= |s| && Spelled(s[..len], t[..n], u[1..close])
  {
    var msg, rest, name := u[1..close], u[close + 1..], t[..n];
    assert u == "?" + msg + "}" + rest;
    assert s == "${" + t;
    var op := if t[n] == ':' then ":?" else "?";
    if t[n] == ':' {
      assert t == name + (":" + u);
      WithColon(msg, rest);
    } else {
      assert t == name + u;
    }
    assert t == name + (op + msg + "}" + rest);
    Grouped(name, op, msg, rest);
    var x := "${" + name + op + msg + "}";
    assert s == x + rest && s[..|x|] == x;
  }

  lemma WithColon(msg: string, rest: string)
    ensures ":" + ("?" + msg + "}" + rest) == ":?" + msg + "}" + rest
  {
    assert ":?" == ":" + "?";
  }

  lemma Grouped(name: string, op: string, msg: string, rest: string)
    ensures "${" + (name + (op + msg + "}" + rest)) == "${" + name + op + msg + "}" + rest
  {}

  /** The part of a placeholder behind its name. */
  function Tail(colon: bool, msg: string, rest: string): string {
    if colon then ":" + ("?" + msg + "}" + rest) else "?" + msg + "}" + rest
  }

  lemma PlaceholderMatches(name: string, msg: string, t: string, rest: string)
    requires IsIdentifier(name) && !Contains(msg, '}') && Spelled(t, name, msg)
    ensures PlaceholderPrefix(t + rest) == Some((name, |t|))
  {
    hide PlaceholderPrefix, IsIdentifier, Contains;
    var colon := t == "${" + name + ":?" + msg + "}";
    if colon {
      assert ":?" == ":" + "?";
      assert t + rest == "${" + (name + Tail(true, msg, rest));
    } else {
      assert t + rest == "${" + (name + Tail(false, msg, rest));
    }
    TailMatches(name, colon, msg, rest);
  }

  lemma TailMatches(name: string, colon: bool, msg: string, rest: string)
    requires IsIdentifier(name) && !Contains(msg, '}')
    ensures PlaceholderPrefix("${" + (name + Tail(colon, msg, rest)))
            == Some((name, 2 + |name| + (if colon then 1 else 0) + 2 + |msg|))
  {
    hide IdentifierRun, IsIdentifier, IndexOf, Contains, PlaceholderPrefix, IsLetter, IsDigit, Tail;
    var behind := Tail(colon, msg, rest);
    TailStarts(colon, msg, rest);
    RunOfName(name, behind);
    IdentifierStart(name);
    CloseAt(msg, rest);
    BehindName(name, behind);
    hide Behind;
    assert behind != "" && Behind(name + behind, |name|) == Message(msg, rest);
    PrefixWhen(name + behind, |name|);
  }

  lemma TailStarts(colon: bool, msg: string, rest: string)
    ensures var behind := Tail(colon, msg, rest);
            && behind != "" && !IsLetter(behind[0]) && !IsDigit(behind[0])
            && |behind| == (if colon then 1 else 0) + 2 + |msg| + |rest|
            && (if behind[0] == ':' then behind[1..] else behind) == Message(msg, rest)
  {
    var behind, u := Tail(colon, msg, rest), "?" + msg + "}" + rest;
    assert u[0] == '?';
    if colon { assert behind[1..] == u; }
  }

  lemma Dollar(t: string)
    ensures "${" <= "${" + t && ("${" + t)[2..] == t
  {}

  function Message(msg: string, rest: string): string { "?" + msg + "}" + rest }

  lemma BehindName(name: string, behind: string)
    requires name != "" && behind != ""
    ensures var t := name + behind;
            && t[..|name|] == name && t[0] == name[0]
            && Behind(t, |name|) == if behind[0] == ':' then behind[1..] else behind
  {
    var t := name + behind;
    assert t[|name|] == behind[0] && t[|name|..] == behind && t[|name| + 1..] == behind[1..];
  }

  lemma PrefixWhen(t: string, n: nat)
    requires IdentifierRun(t) == n > 0 && !IsDigit(t[0])
    requires var u := Behind(t, n); u != "" && u[0] == '?' && IndexOf(u, '}') < |u|
    ensures var u := Behind(t, n);
            PlaceholderPrefix("${" + t) == Some((t[..n], 2 + |t| - |u| + IndexOf(u, '}') + 1))
  {
    hide IdentifierRun, IsDigit, IndexOf;
    Dollar(t);
  }

  lemma IdentifierStart(name: string)
    requires IsIdentifier(name)
    ensures name != "" && !IsDigit(name[0])
  {}

  lemma CloseAt(msg: string, rest: string)
    requires !Contains(msg, '}')
    ensures var u := Message(msg, rest);
            u != "" && u[0] == '?' && IndexOf(u, '}') == 1 + |msg| < |u| == 2 + |msg| + |rest|
  {
    var u := "?" + msg + "}" + rest;
    assert u[1 + |msg|] == '}';
    assert forall i :: 0 <= i < 1 + |msg| ==> u[i] == if i == 0 then '?' else msg[i - 1];
  }

  /** What is matched at the start of a text is a placeholder there, and any placeholder there is what is
      matched. */
  lemma PrefixExactly(s: string, name: string, len: nat)
    ensures PlaceholderPrefix(s) == Some((name, len)) <==> len <= |s| && IsPlaceholder(s[..len], name)
  {
    hide PlaceholderPrefix, IsIdentifier, Contains, Spelled;
    if PlaceholderPrefix(s) == Some((name, len)) { MatchIsPlaceholder(s); }
    if len <= |s| && IsPlaceholder(s[..len], name) {
      var msg :| !Contains(msg, '}') && Spelled(s[..len], name, msg);
      PlaceholderMatches(name, msg, s[..len], s[len..]);
      assert s[..len] + s[len..] == s;
    }
  }

  /** A placeholder in a line: where it starts, where it ends, and its name. */
  datatype Stretch = Stretch(start: nat, end: nat, name: string)

  ghost predicate Starts(s: string, i: nat) { exists x: Stretch :: StandsAt(s, x) && x.start == i }

  ghost predicate StandsAt(s: string, x: Stretch) {
    x.start <= x.end <= |s| && IsPlaceholder(s[x.start..x.end], x.name)
  }

  /** Leftmost stretches from `from` on, each after the one before it, none passed over. */
  ghost predicate Leftmost(s: string, from: nat, xs: seq<Stretch>)
    decreases |xs|
  {
    if xs == [] then forall i: nat :: from <= i ==> !Starts(s, i)
    else
      && from <= xs[0].start && StandsAt(s, xs[0])
      && (forall i: nat :: from <= i < xs[0].start ==> !Starts(s, i))
      && Leftmost(s, xs[0].end, xs[1..])
  }

  function NamesOf(xs: seq<Stretch>): seq<string> { seq(|xs|, i requires 0 <= i < |xs| => xs[i].name) }

  lemma StartsExactly(s: string, i: nat)
    ensures Starts(s, i) <==> i <= |s| && PlaceholderPrefix(s[i..]).Some?
  {
    hide PlaceholderPrefix, IsPlaceholder;
    if Starts(s, i) {
      var x: Stretch :| StandsAt(s, x) && x.start == i;
      assert s[i..][..x.end - i] == s[i..x.end];
      PrefixExactly(s[i..], x.name, x.end - i);
    }
    if i <= |s| && PlaceholderPrefix(s[i..]).Some? {
      var (name, len) := PlaceholderPrefix(s[i..]).value;
      PrefixExactly(s[i..], name, len);
      assert s[i..][..len] == s[i..i + len];
      assert StandsAt(s, Stretch(i, i + len, name));
    }
  }

  lemma NothingStarts(s: string)
    ensures PlaceholderPrefix(s[|s|..]) == None
  {}

  /** Every line has such stretches, with the names found. */
  lemma {:induction false} FoundFrom(s: string, from: nat) returns (xs: seq<Stretch>)
    requires from <= |s|
    ensures Leftmost(s, from, xs) && NamesOf(xs) == PlaceholdersIn(s[from..])
    decreases |s| - from
  {
    hide IsPlaceholder, PlaceholderPrefix;
    StartsExactly(s, from);
    if from == |s| {
      NothingStarts(s);
      forall i: nat | from <= i ensures !Starts(s, i) { StartsExactly(s, i); }
      xs := [];
    } else if PlaceholderPrefix(s[from..]).Some? {
      var (name, len) := PlaceholderPrefix(s[from..]).value;
      PrefixExactly(s[from..], name, len);
      assert s[from..][..len] == s[from..from + len] && s[from..][len..] == s[from + len..];
      var rest := FoundFrom(s, from + len);
      xs := [Stretch(from, from + len, name)] + rest;
      assert xs[1..] == rest;
      assert NamesOf(xs) == [name] + NamesOf(rest);
    } else {
      assert s[from..][1..] == s[from + 1..];
      xs := FoundFrom(s, from + 1);
      OneEarlier(s, from, xs);
    }
  }

  lemma OneEarlier(s: string, from: nat, xs: seq<Stretch>)
    requires !Starts(s, from) && Leftmost(s, from + 1, xs)
    ensures Leftmost(s, from, xs)
  {
    hide Starts, StandsAt;
  }

  lemma StandsOnce(s: string, x: Stretch, y: Stretch)
    requires StandsAt(s, x) && StandsAt(s, y) && x.start == y.start
    ensures x == y
  {
    assert s[x.start..][..x.end - x.start] == s[x.start..x.end] && s[x.start..][..y.end - x.start] == s[x.start..y.end];
    PrefixExactly(s[x.start..], x.name, x.end - x.start);
    PrefixExactly(s[x.start..], y.name, y.end - x.start);
  }

  /** They are determined by the line. */
  lemma {:induction false} LeftmostIsUnique(s: string, from: nat, xs: seq<Stretch>, ys: seq<Stretch>)
    requires Leftmost(s, from, xs) && Leftmost(s, from, ys)
    ensures xs == ys
    decreases |xs|
  {
    hide IsPlaceholder;
    if xs != [] { assert Starts(s, xs[0].start); }
    if ys != [] { assert Starts(s, ys[0].start); }
    if xs != [] && ys != [] {
      StandsOnce(s, xs[0], ys[0]);
      LeftmostIsUnique(s, xs[0].end, xs[1..], ys[1..]);
      assert xs == [xs[0]] + xs[1..] && ys == [ys[0]] + ys[1..];
    }
  }

  /** The names found in a line are those of its leftmost placeholders, one after the other. */
  lemma PlaceholdersExactly(s: string, xs: seq<Stretch>)
    requires Leftmost(s, 0, xs)
    ensures PlaceholdersIn(s) == NamesOf(xs)
  {
    hide Leftmost;
    var ys := FoundFrom(s, 0);
    LeftmostIsUnique(s, 0, xs, ys);
    assert s[0..] == s;
  }

  // ---- Service headers ----

  /** A service name, by code point: letters, digits, `_`, `.` and `-`. */
  predicate IsServiceName(name: string) {
    && name != ""
    && forall i :: 0 <= i < |name| ==>
         var n := name[i] as int;
         0x2D <= n <= 0x2E || 0x30 <= n <= 0x39 || 0x41 <= n <= 0x5A || n == 0x5F || 0x61 <= n <= 0x7A
  }

  /** White space, the name, a colon, white space, and nothing else but a comment. */
  ghost predicate IsHeader(line: string, name: string) {
    && IsServiceName(name)
    && exists a, b, comment :: HeaderParts(line, name, a, b, comment)
  }

  ghost predicate HeaderParts(line: string, name: string, a: string, b: string, comment: string) {
    line == a + name + ":" + b + comment && AllSpace(a) && AllSpace(b) && (comment == "" || comment[0] == '#')
  }

  lemma ServiceCharIs(c: char)
    ensures var n := c as int;
            IsServiceChar(c) <==> || 0x2D <= n <= 0x2E || 0x30 <= n <= 0x39 || 0x41 <= n <= 0x5A || n == 0x5F
                                  || 0x61 <= n <= 0x7A
  {}

  lemma {:induction false} ServiceRunIs(s: string)
    ensures var n := ServiceRun(s);
            (forall i :: 0 <= i < n ==> IsServiceChar(s[i])) && (n < |s| ==> !IsServiceChar(s[n]))
  {
    if s != "" { ServiceRunIs(s[1..]); }
  }

  lemma LeadingSpace(a: string, s: string)
    requires AllSpace(a) && (s == "" || !IsSpace(s[0]))
    ensures LStrip(a + s) == s
  {
    var t := a + s;
    LStripIsSuffix(t);
    var n := |t| - |LStrip(t)|;
    assert forall i :: 0 <= i < |a| ==> t[i] == a[i];
    if s != "" { assert t[|a|] == s[0]; }
    assert n == |a|;
    assert t[|a|..] == s;
  }

  lemma HeaderReads(line: string)
    requires ServiceLine(line).Some?
    ensures IsHeader(line, ServiceLine(line).value)
  {
    var t := LStrip(line);
    var n := ServiceRun(t);
    RunIsServiceName(t);
    hide IsServiceChar, IsServiceName, ServiceRun;
    var u := t[n + 1..];
    var a := SpaceOff(line);
    var b := SpaceOff(u);
    hide LStrip, IsSpace, AllSpace;
    Assembled(line, a, t, n, b, LStrip(u));
    assert HeaderParts(line, t[..n], a, b, LStrip(u));
  }

  lemma SpaceOff(s: string) returns (a: string)
    ensures s == a + LStrip(s) && AllSpace(a)
  {
    LStripIsSuffix(s);
    a := s[..|s| - |LStrip(s)|];
  }

  lemma RunIsServiceName(t: string)
    ensures ServiceRun(t) > 0 ==> IsServiceName(t[..ServiceRun(t)])
  {
    ServiceRunIs(t);
    NameOfChars(t[..ServiceRun(t)]);
  }

  lemma Assembled(line: string, a: string, t: string, n: nat, b: string, comment: string)
    requires line == a + t && n < |t| && t[n] == ':' && t[n + 1..] == b + comment
    ensures line == a + t[..n] + ":" + b + comment
  {
    assert t == t[..n] + ":" + (b + comment);
  }

  lemma NameOfChars(name: string)
    ensures IsServiceName(name) <==> name != "" && forall i :: 0 <= i < |name| ==> IsServiceChar(name[i])
  {
    forall c: char
      ensures var n := c as int;
              IsServiceChar(c) <==> || 0x2D <= n <= 0x2E || 0x30 <= n <= 0x39 || 0x41 <= n <= 0x5A || n == 0x5F
                                    || 0x61 <= n <= 0x7A
    {
      ServiceCharIs(c);
    }
    hide IsServiceChar;
  }

  lemma HeaderIsRead(name: string, a: string, b: string, comment: string)
    requires IsServiceName(name) && AllSpace(a) && AllSpace(b) && (comment == "" || comment[0] == '#')
    ensures ServiceLine(a + name + ":" + b + comment) == Some(name)
  {
    NameOfChars(name);
    var u := b + comment;
    var t := name + ":" + u;
    assert a + name + ":" + b + comment == a + t;
    assert !IsSpace(t[0]) by { assert IsServiceChar(name[0]) && t[0] == name[0]; }
    LeadingSpace(a, t);
    ServiceRunIs(t);
    assert forall i :: 0 <= i < |name| ==> t[i] == name[i];
    assert t[|name|] == ':' && !IsServiceChar(':');
    assert ServiceRun(t) == |name|;
    assert t[..|name|] == name && t[|name| + 1..] == u;
    LeadingSpace(b, comment);
  }

  /** A line reads as a header exactly when it is one. */
  lemma ServiceLineExactly(line: string, name: string)
    ensures ServiceLine(line) == Some(name) <==> IsHeader(line, name)
  {
    hide ServiceLine, IsServiceName;
    if ServiceLine(line) == Some(name) { HeaderReads(line); }
    if IsHeader(line, name) {
      var a, b, comment :| HeaderParts(line, name, a, b, comment);
      HeaderIsRead(name, a, b, comment);
    }
  }

  /** Neither blank nor a comment. */
  predicate HasContent(line: string) { Strip(line) != "" && Strip(line)[0] != '#' }

  /** A line that leaves the section of that indent open. */
  predicate Within(line: string, indent: int) {
    Strip(line) != "services:" && (HasContent(line) ==> Indent(line) > indent)
  }

  /** Line `i` stands in the section that line `j` opens. */
  predicate InSection(ls: seq<string>, j: int, i: int) {
    && 0 <= j < i <= |ls| && Strip(ls[j]) == "services:"
    && forall k :: j < k < i ==> Within(ls[k], Indent(ls[j]))
  }

  lemma {:induction false} SectionExactly(ls: seq<string>, i: nat, indent: int)
    requires i <= |ls|
    ensures SectionAt(ls, i) == Some(indent) <==> exists j :: InSection(ls, j, i) && Indent(ls[j]) == indent
  {
    hide Strip, Indent;
    if i > 0 {
      var n := i - 1;
      SectionExactly(ls, n, indent);
      SectionStep(ls, n, indent);
    }
  }

  lemma SectionStep(ls: seq<string>, n: nat, indent: int)
    requires n < |ls|
    ensures (exists j :: InSection(ls, j, n + 1) && Indent(ls[j]) == indent) <==>
            if Strip(ls[n]) == "services:" then Indent(ls[n]) == indent
            else Within(ls[n], indent) && exists j :: InSection(ls, j, n) && Indent(ls[j]) == indent
  {
    hide Strip, Indent;
    var m := n + 1;
    if Strip(ls[n]) == "services:" {
      assert InSection(ls, n, m);
      forall j | InSection(ls, j, m) ensures j == n { LastOpens(ls, j, n); }
    } else {
      forall j ensures InSection(ls, j, m) <==> InSection(ls, j, n) && Within(ls[n], Indent(ls[j])) {
        if InSection(ls, j, m) { assert j != n; }
      }
    }
  }

  lemma LastOpens(ls: seq<string>, j: int, n: nat)
    requires n < |ls| && InSection(ls, j, n + 1)
    ensures j == n || Strip(ls[n]) != "services:"
  {
    hide Strip, Indent;
  }

  /** A line starts a service exactly when it is a header two columns into the section it stands in. */
  lemma HeaderExactly(ls: seq<string>, i: nat, name: string)
    requires i < |ls|
    ensures HeaderAt(ls, i) == Some(name) <==>
            && Strip(ls[i]) != "services:" && HasContent(ls[i]) && IsHeader(ls[i], name)
            && exists j :: InSection(ls, j, i) && Indent(ls[i]) == Indent(ls[j]) + 2
  {
    ServiceLineExactly(ls[i], name);
    hide Strip, Indent, ServiceLine, IsHeader, InSection, SectionAt;
    var at := Indent(ls[i]) - 2;
    SectionExactly(ls, i, at);
    if SectionAt(ls, i).Some? { SectionExactly(ls, i, SectionAt(ls, i).value); }
  }

  /** Columns of white space before a line's first other character. */
  lemma IndentIs(line: string)
    ensures var n := Indent(line);
            0 <= n <= |line| && AllSpace(line[..n]) && (n < |line| ==> !IsSpace(line[n]))
  {
    LStripIsSuffix(line);
  }
}
