/** The Dokploy compose env payload: owner-marked blocks, value encoding and the merge
    (`dokploy/env_spec.py`). */
module EnvFormat {
  import opened Text

  datatype EnvSpec = EnvSpec(
    name: string, value: string, sensitive: bool, required: bool,
    owner: string, targets: seq<string>, marker: string, fingerprint: string)

  /** A merged block's owner: the ownership marker with the owning pack. */
  type Pair = (string, string)

  const MARKER := "# dokploy-wizard-env"

  predicate IsLetter(c: char) { 'A' <= c <= 'Z' || 'a' <= c <= 'z' || c == '_' }

  predicate IsDigit(c: char) { '0' <= c <= '9' }

  predicate IsIdentifier(s: string) {
    s != "" && IsLetter(s[0]) && forall i :: 0 <= i < |s| ==> IsLetter(s[i]) || IsDigit(s[i])
  }

  predicate IsMarker(line: string) { MARKER <= line }

  function KeyOf(line: string): string { line[..IndexOf(line, '=')] }

  function ValueOf(line: string): string
    requires Contains(line, '=')
  {
    line[IndexOf(line, '=') + 1..]
  }

  predicate LooksLikeEnvAssignment(line: string) {
    && line != "" && !("#" <= LStrip(line)) && Contains(line, '=')
    && IsIdentifier(KeyOf(line))
  }

  /** An assignment is a line whose part before the first equality sign is a name. */
  lemma LooksLikeEnvAssignmentIs(line: string)
    ensures LooksLikeEnvAssignment(line) <==> exists n :: NameEnds(line, n)
  {
    if LooksLikeEnvAssignment(line) { assert NameEnds(line, IndexOf(line, '=')); }
    if n :| NameEnds(line, n) {
      assert line[..n][0] == line[0] && IndexOf(line, '=') == n;
      assert LStrip(line) == line;
    }
  }

  predicate NameEnds(line: string, n: int) {
    0 <= n < |line| && line[n] == '=' && IsIdentifier(line[..n]) && forall i :: 0 <= i < n ==> line[i] != '='
  }

  // ---- Value encoding ----

  predicate IsSafe(c: char) {
    'A' <= c <= 'Z' || 'a' <= c <= 'z' || IsDigit(c) || c in "_./:@%+=,-"
  }

  predicate AllSafe(s: string) { forall i :: 0 <= i < |s| ==> IsSafe(s[i]) }

  /** The pattern ends in `$`, which also matches before one final newline. */
  predicate SafeThenNewline(v: string) {
    |v| >= 2 && v[|v| - 1] == '\n' && AllSafe(v[..|v| - 1])
  }

  predicate MatchesSafePattern(v: string) { v != "" && (AllSafe(v) || SafeThenNewline(v)) }

  /** What is written without quotes: some of these characters, perhaps with one newline behind. */
  lemma PlainExactly(v: string)
    ensures DotenvValue(v) == v <==> PlainBody(v) || (|v| > 0 && PlainBody(v[..|v| - 1]) && v[|v| - 1] == '\n')
    ensures DotenvValue(v) != v ==> |DotenvValue(v)| >= 2 && DotenvValue(v)[0] == '"'
                                    && DotenvValue(v)[|DotenvValue(v)| - 1] == '"'
  {
    hide Replace;
    SafeIsPlain(v);
    if |v| > 0 { SafeIsPlain(v[..|v| - 1]); }
    if !MatchesSafePattern(v) { QuotedIsLonger(v); }
    hide AllSafe, PlainBody;
  }

  predicate PlainBody(s: string) { s != "" && forall i :: 0 <= i < |s| ==> PlainCode(s[i] as int) }

  /** Letters, digits and `_./:@%+=,-`. */
  predicate PlainCode(n: int) {
    n == 0x25 || 0x2B <= n <= 0x3A || n == 0x3D || 0x40 <= n <= 0x5A || n == 0x5F || 0x61 <= n <= 0x7A
  }

  lemma SafeIsPlain(s: string)
    ensures s != "" && AllSafe(s) <==> PlainBody(s)
  {
    forall i | 0 <= i < |s| ensures IsSafe(s[i]) <==> PlainCode(s[i] as int) { SafeCharacters(s[i]); }
    hide IsSafe, PlainCode;
  }

  lemma SafeCharacters(c: char)
    ensures IsSafe(c) <==> PlainCode(c as int)
  {
    assert "_./:@%+=,-" == ['_', '.', '/', ':', '@', '%', '+', '=', ',', '-'];
  }

  lemma {:induction false} ReplaceIsNoShorter(s: string, c: char, sub: string)
    requires sub != ""
    ensures |Replace(s, c, sub)| >= |s|
  {
    if s != "" { ReplaceIsNoShorter(s[1..], c, sub); }
  }

  lemma QuotedIsLonger(v: string)
    requires !MatchesSafePattern(v)
    ensures |DotenvValue(v)| > |v|
  {
    ReplaceIsNoShorter(v, '\\', "\\\\");
    ReplaceIsNoShorter(Replace(v, '\\', "\\\\"), '"', "\\\"");
    ReplaceIsNoShorter(Replace(Replace(v, '\\', "\\\\"), '"', "\\\""), '\n', "\\n");
  }

  function Replace(s: string, c: char, sub: string): string {
    if s == "" then "" else (if s[0] == c then sub else [s[0]]) + Replace(s[1..], c, sub)
  }

  function DotenvValue(v: string): string {
    if v == "" then "\"\""
    else if MatchesSafePattern(v) then v
    else "\"" + Replace(Replace(Replace(v, '\\', "\\\\"), '"', "\\\""), '\n', "\\n") + "\""
  }

  function EscapeChar(c: char): string {
    match c
    case '\\' => "\\\\"
    case '"' => "\\\""
    case '\n' => "\\n"
    case _ => [c]
  }

  /** One character at a time, in a single pass. */
  function Escape(s: string): string { if s == "" then "" else EscapeChar(s[0]) + Escape(s[1..]) }

  function Unescape(s: string): string
    decreases |s|
  {
    if s == "" then ""
    else if s[0] == '\\' && |s| > 1 then (if s[1] == 'n' then "\n" else [s[1]]) + Unescape(s[2..])
    else [s[0]] + Unescape(s[1..])
  }

  /** A dotenv reader: quoted text is unescaped, anything else is literal. */
  function DecodeValue(t: string): string {
    if |t| >= 2 && t[0] == '"' && t[|t| - 1] == '"' then Unescape(t[1..|t| - 1]) else t
  }

  lemma {:induction false} ThreeReplacementsAreOneEscape(v: string)
    ensures Replace(Replace(Replace(v, '\\', "\\\\"), '"', "\\\""), '\n', "\\n") == Escape(v)
  {
    if v != "" {
      ThreeReplacementsAreOneEscape(v[1..]);
      var h := if v[0] == '\\' then "\\\\" else [v[0]];
      var t := Replace(v[1..], '\\', "\\\\");
      ReplaceAppend(h, t, '"', "\\\"");
      var h2 := Replace(h, '"', "\\\"");
      ReplaceAppend(h2, Replace(t, '"', "\\\""), '\n', "\\n");
      ReplaceShort(h, '"', "\\\"");
      ReplaceShort(h2, '\n', "\\n");
    }
  }

  lemma {:induction false} ReplaceAppend(a: string, b: string, c: char, sub: string)
    ensures Replace(a + b, c, sub) == Replace(a, c, sub) + Replace(b, c, sub)
  {
    if a == "" {
      assert a + b == b;
    } else {
      ReplaceAppend(a[1..], b, c, sub);
      assert (a + b)[1..] == a[1..] + b;
      Regroup(if a[0] == c then sub else [a[0]], Replace(a[1..], c, sub), Replace(b, c, sub));
    }
  }

  lemma ReplaceShort(a: string, c: char, sub: string)
    requires 1 <= |a| <= 2
    ensures Replace(a, c, sub) ==
            (if a[0] == c then sub else [a[0]]) + if |a| == 1 then "" else if a[1] == c then sub else [a[1]]
  {
    if |a| == 2 { assert a[1..][1..] == ""; }
  }

  lemma {:induction false} UnescapeEscape(s: string)
    ensures Unescape(Escape(s)) == s
  {
    if s != "" {
      UnescapeEscape(s[1..]);
      var h, e := EscapeChar(s[0]), Escape(s[1..]);
      if |h| == 2 { assert Escape(s)[2..] == e; } else { assert Escape(s)[1..] == e; }
    }
  }

  /** Every value, whatever its characters, is recovered from its encoding. */
  lemma DecodeEncode(v: string)
    ensures DecodeValue(DotenvValue(v)) == v
  {
    if v == "" {
      assert DotenvValue(v)[1..1] == "";
    } else if MatchesSafePattern(v) {
      assert v[0] != '"' by { if SafeThenNewline(v) { assert v[0] == v[..|v| - 1][0]; } }
    } else {
      ThreeReplacementsAreOneEscape(v);
      assert DotenvValue(v)[1..|DotenvValue(v)| - 1] == Escape(v);
      UnescapeEscape(v);
    }
  }

  lemma {:induction false} EscapeBreaks(s: string)
    ensures NoBreak(Escape(s)) <==> forall i :: 0 <= i < |s| ==> IsBreak(s[i]) ==> s[i] == '\n'
  {
    if s != "" {
      EscapeBreaks(s[1..]);
      NoBreakAppend(EscapeChar(s[0]), Escape(s[1..]));
      EscapeCharBreaks(s[0]);
      assert s == [s[0]] + s[1..];
    }
  }

  lemma EscapeCharBreaks(c: char)
    ensures NoBreak(EscapeChar(c)) <==> (IsBreak(c) ==> c == '\n')
  {
    if EscapeChar(c) == [c] { assert EscapeChar(c)[0] == c; }
  }

  lemma NoBreakAppend(a: string, b: string)
    ensures NoBreak(a + b) <==> NoBreak(a) && NoBreak(b)
  {
    if NoBreak(a + b) {
      forall i | 0 <= i < |a| ensures !IsBreak(a[i]) { assert (a + b)[i] == a[i]; }
      forall i | 0 <= i < |b| ensures !IsBreak(b[i]) { assert (a + b)[|a| + i] == b[i]; }
    }
  }

  /** The only raw line break the value may hold is a newline, which the encoder escapes. */
  predicate OnlyNewlineBreaks(v: string) {
    forall i :: 0 <= i < |v| ==> IsBreak(v[i]) ==> v[i] == '\n'
  }

  /** The values whose encoding stays on one line. */
  predicate Admissible(v: string) { OnlyNewlineBreaks(v) && !SafeThenNewline(v) }

  lemma EncodingIsOneLineExactly(v: string)
    ensures NoBreak(DotenvValue(v)) <==> Admissible(v)
  {
    if v != "" && !MatchesSafePattern(v) {
      ThreeReplacementsAreOneEscape(v);
      EscapeBreaks(v);
      NoBreakAppend("\"", Escape(v));
      NoBreakAppend("\"" + Escape(v), "\"");
    } else if SafeThenNewline(v) {
      assert IsBreak(v[|v| - 1]);
    }
  }

  // ---- Markers and the rendered block ----

  function FirstField(ws: seq<string>, prefix: string): Option<string> {
    if ws == [] then None
    else if prefix <= ws[0] then Some(ws[0][|prefix|..])
    else FirstField(ws[1..], prefix)
  }

  function MarkerField(line: string, field: string): Option<string> {
    FirstField(Words(line), field + "=")
  }

  function OwnedPairs(specs: seq<EnvSpec>): set<Pair> { set s <- specs :: (s.marker, s.owner) }

  predicate IsOwnedMarker(line: string, pairs: set<Pair>) {
    && IsMarker(line)
    && MarkerField(line, "marker").Some? && MarkerField(line, "owner").Some?
    && (MarkerField(line, "marker").value, MarkerField(line, "owner").value) in pairs
  }

  function MarkerFields(s: EnvSpec): string {
    "marker=" + s.marker + " " + ("owner=" + s.owner + " " + MarkerRest(s))
  }

  function MarkerRest(s: EnvSpec): string { "key=" + s.name + " fingerprint=" + s.fingerprint }

  function MarkerLine(s: EnvSpec): string {
    MARKER + " " + MarkerFields(s)
  }

  function AssignmentLine(s: EnvSpec): string { s.name + "=" + DotenvValue(s.value) }

  function BlockLines(specs: seq<EnvSpec>): seq<string> {
    if specs == [] then [] else [MarkerLine(specs[0]), AssignmentLine(specs[0])] + BlockLines(specs[1..])
  }

  function RenderBlock(specs: seq<EnvSpec>): string {
    if BlockLines(specs) == [] then "" else JoinLines(BlockLines(specs)) + "\n"
  }

  method RenderWizardEnvBlock(specs: seq<EnvSpec>) returns (block: string)
    ensures block == RenderBlock(specs)
  {
    hide MarkerLine, AssignmentLine;
    var lines := [];
    for i := 0 to |specs|
      invariant lines == BlockLines(specs[..i])
    {
      BlockLinesAppend(specs[..i], [specs[i]]);
      assert specs[..i + 1] == specs[..i] + [specs[i]];
      lines := lines + [MarkerLine(specs[i]), AssignmentLine(specs[i])];
    }
    assert specs[..|specs|] == specs;
    block := if lines == [] then "" else JoinLines(lines) + "\n";
  }

  lemma {:induction false} BlockLinesAppend(a: seq<EnvSpec>, b: seq<EnvSpec>)
    ensures BlockLines(a + b) == BlockLines(a) + BlockLines(b)
  {
    hide MarkerLine, AssignmentLine;
    if a == [] {
      assert a + b == b;
    } else {
      BlockLinesAppend(a[1..], b);
      assert (a + b)[1..] == a[1..] + b;
      Regroup([MarkerLine(a[0]), AssignmentLine(a[0])], BlockLines(a[1..]), BlockLines(b));
    }
  }

  /** Names are identifiers; the marker fields hold no white space. */
  predicate WellFormed(s: EnvSpec) {
    IsIdentifier(s.name) && NoSpace(s.marker) && NoSpace(s.owner) && NoSpace(s.fingerprint)
  }

  predicate AllWellFormed(specs: seq<EnvSpec>) { forall s <- specs :: WellFormed(s) }

  predicate AllAdmissible(specs: seq<EnvSpec>) { forall s <- specs :: Admissible(s.value) }

  lemma IdentifierIsPlain(name: string)
    requires IsIdentifier(name)
    ensures NoBreak(name) && NoSpace(name) && !Contains(name, '=')
  {}

  lemma AssignmentLineParses(s: EnvSpec)
    requires IsIdentifier(s.name)
    ensures var l := AssignmentLine(s);
            && LooksLikeEnvAssignment(l) && KeyOf(l) == s.name && ValueOf(l) == DotenvValue(s.value)
            && !IsMarker(l)
  {
    var l := AssignmentLine(s);
    IdentifierIsPlain(s.name);
    assert l[|s.name|] == '=' && forall j :: 0 <= j < |s.name| ==> l[j] == s.name[j];
    assert IndexOf(l, '=') == |s.name|;
    assert l[0] == s.name[0] && LStrip(l) == l;
  }

  lemma WordsThen(w: string, rest: string)
    requires w != "" && NoSpace(w)
    ensures Words(w + " " + rest) == [w] + Words(rest)
  {
    assert w + " " + rest == w + (" " + rest);
    WordsCons(w, " " + rest);
    assert (" " + rest)[1..] == rest;
  }

  lemma TwoWords(a: string, b: string, rest: string)
    requires a != "" && b != "" && NoSpace(a) && NoSpace(b)
    ensures Words(a + " " + (b + " " + rest)) == [a] + ([b] + Words(rest))
  {
    WordsThen(b, rest);
    WordsThen(a, b + " " + rest);
  }

  lemma FirstFieldSkip(w: string, ws: seq<string>, prefix: string)
    requires |prefix| > |w| || (w != "" && prefix != "" && prefix[0] != w[0])
    ensures FirstField([w] + ws, prefix) == FirstField(ws, prefix)
  {
    assert ([w] + ws)[1..] == ws;
  }

  lemma MarkerLineWords(s: EnvSpec)
    requires WellFormed(s)
    ensures Words(MarkerLine(s)) ==
            ["#"] + (["dokploy-wizard-env"]
            + (["marker=" + s.marker] + (["owner=" + s.owner] + Words(MarkerRest(s)))))
  {
    assert NoSpace("dokploy-wizard-env") && NoSpace("#");
    TwoWords("marker=" + s.marker, "owner=" + s.owner, MarkerRest(s));
    TwoWords("#", "dokploy-wizard-env", MarkerFields(s));
    MarkerSplit(MarkerFields(s));
  }

  lemma MarkerSplit(x: string)
    ensures MARKER + " " + x == "#" + " " + ("dokploy-wizard-env" + " " + x)
  {
    assert MARKER == "#" + " " + "dokploy-wizard-env";
  }

  lemma {:induction false} FieldBehind(before: seq<string>, w: string, prefix: string)
    requires prefix <= w && forall b <- before :: !(prefix <= b)
    ensures FirstField(before + [w], prefix) == Some(w[|prefix|..])
  {
    if before == [] {
      assert before + [w] == [w];
    } else {
      assert (before + [w])[1..] == before[1..] + [w] && (before + [w])[0] == before[0];
      assert before[0] in before && forall b <- before[1..] :: b in before;
      FieldBehind(before[1..], w, prefix);
    }
  }

  lemma {:induction false} FieldBefore(before: seq<string>, after: seq<string>, prefix: string)
    requires FirstField(before, prefix).Some?
    ensures FirstField(before + after, prefix) == FirstField(before, prefix)
  {
    assert (before + after)[0] == before[0];
    if !(prefix <= before[0]) {
      assert (before + after)[1..] == before[1..] + after;
      FieldBefore(before[1..], after, prefix);
    }
  }

  lemma NoSpaceJoin(a: string, b: string)
    requires (a == "key=" || a == "fingerprint=") && NoSpace(b)
    ensures NoSpace(a + b) && a + b != ""
  {
    assert "key=" == ['k', 'e', 'y', '='];
    assert "fingerprint=" == ['f', 'i', 'n', 'g', 'e', 'r', 'p', 'r', 'i', 'n', 't', '='];
    assert NoSpace(a);
    assert forall i :: 0 <= i < |a + b| ==> (a + b)[i] == if i < |a| then a[i] else b[i - |a|];
  }

  lemma RestWords(s: EnvSpec)
    requires WellFormed(s)
    ensures Words(MarkerRest(s)) == ["key=" + s.name, "fingerprint=" + s.fingerprint]
  {
    IdentifierIsPlain(s.name);
    var k, f := "key=" + s.name, "fingerprint=" + s.fingerprint;
    NoSpaceJoin("key=", s.name);
    NoSpaceJoin("fingerprint=", s.fingerprint);
    hide IsIdentifier, NoSpace;
    assert MarkerRest(s) == k + " " + f by { Regroup(k, " ", f); assert " fingerprint=" == " " + "fingerprint="; }
    WordsThen(k, f);
    assert Words("") == [];
    hide Words;
    WordsCons(f, "");
    assert f + "" == f;
  }

  lemma FirstLetters(s: EnvSpec)
    ensures !("key=" <= "#") && !("key=" <= "dokploy-wizard-env") && !("key=" <= "marker=" + s.marker)
    ensures !("key=" <= "owner=" + s.owner)
    ensures !("fingerprint=" <= "#") && !("fingerprint=" <= "dokploy-wizard-env")
    ensures !("fingerprint=" <= "marker=" + s.marker) && !("fingerprint=" <= "owner=" + s.owner)
    ensures !("fingerprint=" <= "key=" + s.name)
  {
    assert "key="[0] == 'k' && "fingerprint="[0] == 'f' && "#"[0] == '#' && "dokploy-wizard-env"[0] == 'd';
    assert ("marker=" + s.marker)[0] == 'm' && ("owner=" + s.owner)[0] == 'o' && ("key=" + s.name)[0] == 'k';
  }

  /** The name and the fingerprint read back from the marker line. */
  lemma LaterFields(s: EnvSpec)
    requires WellFormed(s)
    ensures MarkerField(MarkerLine(s), "key") == Some(s.name)
    ensures MarkerField(MarkerLine(s), "fingerprint") == Some(s.fingerprint)
  {
    hide WellFormed, FirstField, MarkerRest, MarkerLine, Words;
    MarkerLineWords(s);
    RestWords(s);
    FirstLetters(s);
    var k, f := "key=" + s.name, "fingerprint=" + s.fingerprint;
    var head := ["#", "dokploy-wizard-env", "marker=" + s.marker, "owner=" + s.owner];
    assert "key" + "=" == "key=" && "fingerprint" + "=" == "fingerprint=";
    assert Words(MarkerLine(s)) == head + [k] + [f];
    FieldBehind(head, k, "key=");
    FieldBefore(head + [k], [f], "key=");
    FieldBehind(head + [k], f, "fingerprint=");
    assert k[4..] == s.name && f[12..] == s.fingerprint;
  }

  /** The marker line, field by field in the order written. */
  lemma MarkerLineIs(s: EnvSpec)
    ensures MarkerLine(s) == "# dokploy-wizard-env marker=" + s.marker + " owner=" + s.owner + " key=" + s.name
                             + " fingerprint=" + s.fingerprint
  {
    var r := "key=" + s.name + " fingerprint=" + s.fingerprint;
    assert " key=" == " " + "key=" && " owner=" == " " + "owner=";
    assert "# dokploy-wizard-env marker=" == MARKER + " " + "marker=";
    calc {
      MarkerLine(s);
      MARKER + " " + ("marker=" + s.marker + " " + ("owner=" + s.owner + " " + r));
      MARKER + " " + "marker=" + s.marker + " " + "owner=" + s.owner + " " + r;
    }
  }

  lemma MarkerLineFields(s: EnvSpec)
    requires WellFormed(s)
    ensures MarkerField(MarkerLine(s), "marker") == Some(s.marker)
    ensures MarkerField(MarkerLine(s), "owner") == Some(s.owner)
    ensures MarkerField(MarkerLine(s), "key") == Some(s.name)
    ensures MarkerField(MarkerLine(s), "fingerprint") == Some(s.fingerprint)
  {
    LaterFields(s);
    MarkerLineWords(s);
    var m, o, rest := "marker=" + s.marker, "owner=" + s.owner, Words(MarkerRest(s));
    assert "marker" + "=" == "marker=" && "owner" + "=" == "owner=";
    FirstFieldSkip("#", ["dokploy-wizard-env"] + ([m] + ([o] + rest)), "marker=");
    FirstFieldSkip("#", ["dokploy-wizard-env"] + ([m] + ([o] + rest)), "owner=");
    FirstFieldSkip("dokploy-wizard-env", [m] + ([o] + rest), "marker=");
    FirstFieldSkip("dokploy-wizard-env", [m] + ([o] + rest), "owner=");
    FirstFieldSkip(m, [o] + rest, "owner=");
    assert m[7..] == s.marker && o[6..] == s.owner;
  }

  lemma MarkerLineIsOneLine(s: EnvSpec)
    requires WellFormed(s)
    ensures IsMarker(MarkerLine(s)) && NoBreak(MarkerLine(s))
  {
    IdentifierIsPlain(s.name);
    NoSpaceIsNoBreak(s.marker);
    NoSpaceIsNoBreak(s.owner);
    NoSpaceIsNoBreak(s.fingerprint);
    LiteralsHaveNoBreak();
    hide NoBreak, IsIdentifier, NoSpace;
    NoBreakAppend("key=", s.name);
    NoBreakAppend("key=" + s.name, " fingerprint=");
    NoBreakAppend("key=" + s.name + " fingerprint=", s.fingerprint);
    NoBreakAppend("owner=", s.owner);
    NoBreakAppend("owner=" + s.owner, " ");
    NoBreakAppend("owner=" + s.owner + " ", MarkerRest(s));
    NoBreakAppend("marker=", s.marker);
    NoBreakAppend("marker=" + s.marker, " ");
    NoBreakAppend("marker=" + s.marker + " ", "owner=" + s.owner + " " + MarkerRest(s));
    NoBreakAppend(MARKER, " ");
    NoBreakAppend(MARKER + " ", MarkerFields(s));
  }

  lemma NoSpaceIsNoBreak(s: string)
    requires NoSpace(s)
    ensures NoBreak(s)
  {}

  lemma LiteralsHaveNoBreak()
    ensures NoBreak("key=") && NoBreak(" fingerprint=") && NoBreak("owner=") && NoBreak("marker=")
    ensures NoBreak(" ") && NoBreak(MARKER)
  {}

  lemma AssignmentLineIsOneLine(s: EnvSpec)
    requires WellFormed(s) && Admissible(s.value)
    ensures NoBreak(AssignmentLine(s))
  {
    IdentifierIsPlain(s.name);
    EncodingIsOneLineExactly(s.value);
    assert NoBreak("=");
    hide NoBreak, DotenvValue, IsIdentifier;
    NoBreakAppend(s.name, "=");
    NoBreakAppend(s.name + "=", DotenvValue(s.value));
  }

  /** An encoded value ends in a safe character or in a quote. */
  lemma EncodingEndsSolid(v: string)
    requires Admissible(v)
    ensures var e := DotenvValue(v); e != "" && !IsSpace(e[|e| - 1])
  {
    if v != "" && MatchesSafePattern(v) {
      assert IsSafe(v[|v| - 1]);
    } else if v != "" {
      hide Replace, MatchesSafePattern;
      assert DotenvValue(v)[|DotenvValue(v)| - 1] == '"';
    }
  }

  lemma BlockLinesSnoc(specs: seq<EnvSpec>)
    requires specs != []
    ensures var s := specs[|specs| - 1];
            BlockLines(specs) == BlockLines(specs[..|specs| - 1]) + [MarkerLine(s), AssignmentLine(s)]
  {
    hide MarkerLine, AssignmentLine;
    var n := |specs| - 1;
    BlockLinesAppend(specs[..n], [specs[n]]);
    assert specs[..n] + [specs[n]] == specs;
    assert BlockLines([specs[n]]) == [MarkerLine(specs[n]), AssignmentLine(specs[n])] by {
      assert [specs[n]][1..] == [];
    }
  }
}
