/** The app-store release resolver and its platform version specs (`dokploy/nextcloud.py`). */
module AppStore {
  import opened Text
  import opened PlanModels

  // ---- Version numbers ----

  predicate IsDigits(s: string) { s != "" && forall i :: 0 <= i < |s| ==> '0' <= s[i] <= '9' }

  function Digits(s: string): (n: nat)
    requires forall i :: 0 <= i < |s| ==> '0' <= s[i] <= '9'
  {
    if s == "" then 0 else 10 * Digits(s[..|s| - 1]) + (s[|s| - 1] as int - '0' as int)
  }

  function PowerOfTen(n: nat): nat { if n == 0 then 1 else 10 * PowerOfTen(n - 1) }

  /** Decimal places: what stands left of `b` counts as many powers of ten as `b` has digits. */
  lemma {:induction false} DigitsJoin(a: string, b: string)
    requires (forall i :: 0 <= i < |a| ==> '0' <= a[i] <= '9') && forall i :: 0 <= i < |b| ==> '0' <= b[i] <= '9'
    ensures forall i :: 0 <= i < |a + b| ==> '0' <= (a + b)[i] <= '9'
    ensures Digits(a + b) == Digits(a) * PowerOfTen(|b|) + Digits(b)
  {
    if b == "" {
      assert a + b == a;
    } else {
      var n := |b| - 1;
      DigitsJoin(a, b[..n]);
      assert (a + b)[..|a + b| - 1] == a + b[..n];
      OnePlace(Digits(a), PowerOfTen(n), Digits(b[..n]), b[n] as int - '0' as int);
      assert (a + b)[|a + b| - 1] == b[n];
      assert PowerOfTen(|b|) == 10 * PowerOfTen(n);
    }
  }

  lemma OnePlace(a: nat, p: nat, b: nat, d: int)
    ensures 10 * (a * p + b) + d == a * (10 * p) + (10 * b + d)
  {}

  lemma OneDigit(d: nat)
    requires d < 10
    ensures var c := ('0' as int + d) as char; '0' <= c <= '9' && Digits([c]) == d
  {
    var c := ('0' as int + d) as char;
    assert [c][..0] == "" && Digits("") == 0;
  }

  lemma DigitsAre(s: string)
    ensures IsDigits(s) <==> s != "" && forall i :: 0 <= i < |s| ==> 0x30 <= s[i] as int <= 0x39
  {}

  /** A version reads as the number before its first dot, white space around it aside, when there is one. */
  lemma MajorExactly(value: string, n: nat)
    ensures Major(value) == Some(n) <==>
            exists text, rest :: Strip(value) == text + rest && (rest == "" || rest[0] == '.')
                                 && IsDigits(text) && Digits(text) == n
  {
    var v := Strip(value);
    var i := IndexOf(v, '.');
    hide Digits, Strip;
    if Major(value) == Some(n) {
      assert v == v[..i] + v[i..];
    }
    if text, rest :| v == text + rest && (rest == "" || rest[0] == '.') && IsDigits(text) && Digits(text) == n {
      assert forall k :: 0 <= k < |text| ==> v[k] == text[k] && v[k] != '.';
      assert rest != "" ==> v[|text|] == '.';
      assert i == |text| && v[..i] == text;
    }
  }

  function Major(value: string): Option<nat> {
    var v := Strip(value);
    var text := v[..IndexOf(v, '.')];
    if IsDigits(text) then Some(Digits(text)) else None
  }

  // ---- Specs ----

  const OPERATORS := [">=", "<=", ">", "<", "==", "="]

  /** The operator a clause starts with, first in the order they are tried; "" for none. */
  function Operator(clause: string, operators: seq<string>): (op: string)
    ensures op <= clause
    ensures op == "" || op in operators
  {
    if operators == [] then ""
    else if operators[0] <= clause then operators[0]
    else Operator(clause, operators[1..])
  }

  predicate Compares(op: string, major: int, version: int) {
    match op
    case ">=" => major >= version
    case "<=" => major <= version
    case ">" => major > version
    case "<" => major < version
    case _ => major == version
  }

  predicate ClauseMatches(clause: string, major: int) {
    var op := Operator(clause, OPERATORS);
    var version := Major(if op == "" then clause else Strip(clause[|op|..]));
    version.Some? && Compares(op, major, version.value)
  }

  function Clauses(spec: string): seq<string> { Words(Spaced(spec)) }

  function Spaced(spec: string): string {
    seq(|spec|, i requires 0 <= i < |spec| => if spec[i] == ',' then ' ' else spec[i])
  }

  /** Clauses are what commas and white space leave apart. */
  lemma ClausesSplit(a: string, sep: char, b: string)
    requires sep == ',' || IsSpace(sep)
    ensures Clauses(a + [sep] + b) == Clauses(a) + Clauses(b)
  {
    var c := if sep == ',' then ' ' else sep;
    assert Spaced(a + [sep] + b) == Spaced(a) + ([c] + Spaced(b));
    WordsApart(Spaced(a), c, Spaced(b));
  }

  lemma OneClause(w: string)
    requires w != "" && NoSpace(w) && !Contains(w, ',')
    ensures Clauses(w) == [w] && Clauses("") == []
  {
    assert Spaced(w) == w && Spaced("") == "";
    WordsCons(w, "");
    assert w + "" == w && Words("") == [];
  }

  lemma OperatorCons(clause: string, op: string, ops: seq<string>)
    ensures Operator(clause, [op] + ops) == if op <= clause then op else Operator(clause, ops)
  {
    assert ([op] + ops)[1..] == ops;
  }

  /** The operators in the order they are tried. */
  lemma OperatorIs(clause: string)
    ensures Operator(clause, OPERATORS) ==
            if ">=" <= clause then ">=" else if "<=" <= clause then "<=" else if ">" <= clause then ">"
            else if "<" <= clause then "<" else if "==" <= clause then "==" else if "=" <= clause then "=" else ""
  {
    var e, f := ["="] + [], ["=="] + (["="] + []);
    assert OPERATORS == [">="] + (["<="] + ([">"] + (["<"] + f)));
    OperatorCons(clause, ">=", ["<="] + ([">"] + (["<"] + f)));
    OperatorCons(clause, "<=", [">"] + (["<"] + f));
    OperatorCons(clause, ">", ["<"] + f);
    OperatorCons(clause, "<", f);
    OperatorCons(clause, "==", e);
    OperatorCons(clause, "=", []);
    assert Operator(clause, []) == "";
    hide Operator;
  }

  lemma OperatorFound(op: string, rest: string)
    requires op in OPERATORS && (op in {"<", ">", "="} ==> !("=" <= rest))
    ensures Operator(op + rest, OPERATORS) == op
  {
    var c := op + rest;
    OperatorIs(c);
    hide Operator;
    assert c[0] == op[0];
    if |op| == 1 {
      assert |c| > 1 ==> c[1] == rest[0];
    } else {
      assert c[1] == op[1];
    }
  }

  lemma NoOperator(clause: string)
    requires clause == "" || clause[0] !in "<>="
    ensures Operator(clause, OPERATORS) == ""
  {
    OperatorIs(clause);
    assert ">="[0] == '>' && "<="[0] == '<' && "=="[0] == '=';
    assert "<>=" == ['<', '>', '='];
  }

  /** A clause is an operator right before a version, or a version alone. */
  lemma ClauseIs(op: string, rest: string, major: int)
    requires op in OPERATORS && (op in {"<", ">", "="} ==> !("=" <= rest))
    ensures ClauseMatches(op + rest, major) <==>
            var v := Major(Strip(rest));
            v.Some? && if op == ">=" then major >= v.value else if op == "<=" then major <= v.value
                       else if op == ">" then major > v.value else if op == "<" then major < v.value
                       else major == v.value
  {
    OperatorFound(op, rest);
    assert (op + rest)[|op|..] == rest;
    hide Operator, Major, Strip;
  }

  lemma PlainClauseIs(clause: string, major: int)
    requires clause == "" || clause[0] !in "<>="
    ensures ClauseMatches(clause, major) <==> Major(clause) == Some(major)
  {
    assert Operator(clause, OPERATORS) == "" by { NoOperator(clause); }
    hide Operator, Major;
  }

  predicate SpecMatches(spec: string, major: int) {
    Clauses(spec) != [] && forall c <- Clauses(spec) :: ClauseMatches(c, major)
  }

  // ---- Specs are intervals ----

  /** From `lo` to `hi`, each side open-ended when it is missing. */
  datatype Range = Range(lo: Option<int>, hi: Option<int>) {
    predicate Has(m: int) { (lo.Some? ==> lo.value <= m) && (hi.Some? ==> m <= hi.value) }

    function Meet(r: Range): (s: Range)
      ensures forall m :: s.Has(m) <==> Has(m) && r.Has(m)
    {
      Range(if lo.None? || (r.lo.Some? && lo.value <= r.lo.value) then r.lo else lo,
            if hi.None? || (r.hi.Some? && hi.value >= r.hi.value) then r.hi else hi)
    }
  }

  const NOTHING := Range(Some(1), Some(0))
  const EVERYTHING := Range(None, None)

  function ClauseRange(clause: string): Range {
    var op := Operator(clause, OPERATORS);
    match Major(if op == "" then clause else Strip(clause[|op|..]))
    case None => NOTHING
    case Some(v) =>
      match op
      case ">=" => Range(Some(v), None)
      case "<=" => Range(None, Some(v))
      case ">" => Range(Some(v + 1), None)
      case "<" => Range(None, Some(v - 1))
      case _ => Range(Some(v), Some(v))
  }

  function RangeOf(clauses: seq<string>): Range {
    if clauses == [] then EVERYTHING else ClauseRange(clauses[0]).Meet(RangeOf(clauses[1..]))
  }

  lemma ClauseIsRange(clause: string, major: int)
    ensures ClauseMatches(clause, major) <==> ClauseRange(clause).Has(major)
  {
    hide Major, Strip;
  }

  lemma {:induction false} ClausesAreRange(clauses: seq<string>, major: int)
    ensures (forall c <- clauses :: ClauseMatches(c, major)) <==> RangeOf(clauses).Has(major)
  {
    hide ClauseMatches, ClauseRange, Range.Has, Range.Meet;
    if clauses == [] {
      assert EVERYTHING.Has(major) by { EverythingHas(major); }
    } else {
      ClauseIsRange(clauses[0], major);
      ClausesAreRange(clauses[1..], major);
      assert clauses == [clauses[0]] + clauses[1..];
    }
  }

  lemma EverythingHas(major: int)
    ensures EVERYTHING.Has(major)
  {}

  /** A spec accepts exactly the majors of one interval, whatever its clauses; so what lies between two
      accepted majors is accepted. */
  lemma SpecIsInterval(spec: string, low: int, mid: int, high: int)
    requires low <= mid <= high
    ensures SpecMatches(spec, mid) <==> Clauses(spec) != [] && RangeOf(Clauses(spec)).Has(mid)
    ensures SpecMatches(spec, low) && SpecMatches(spec, high) ==> SpecMatches(spec, mid)
  {
    hide Clauses, ClauseMatches, RangeOf;
    ClausesAreRange(Clauses(spec), low);
    ClausesAreRange(Clauses(spec), mid);
    ClausesAreRange(Clauses(spec), high);
  }

  /** An operator set apart from its number is a clause without a version: the spec matches nothing. */
  lemma LoneOperatorMatchesNothing(spec: string, op: string, major: int)
    requires op in OPERATORS && op in Clauses(spec)
    ensures !SpecMatches(spec, major)
  {
    LoneOperator(op, major);
    hide Clauses, ClauseMatches;
  }

  lemma LoneOperator(op: string, major: int)
    requires op in OPERATORS
    ensures !ClauseMatches(op, major)
  {
    assert |">="| == 2 && |"<="| == 2 && |">"| == 1 && |"<"| == 1 && |"=="| == 2 && |"="| == 1;
    var used := Operator(op, OPERATORS);
    assert used == op by { OperatorOfItself(op); }
    assert op[|op|..] == "";
    assert Major(Strip("")) == None;
  }

  lemma OperatorOfItself(op: string)
    requires op in OPERATORS
    ensures Operator(op, OPERATORS) == op && op != ""
  {
    assert ">="[0] == '>' && ">="[1] == '=' && "<="[0] == '<' && "<="[1] == '=' && ">"[0] == '>' && "<"[0] == '<';
    assert "=="[0] == '=' && "=="[1] == '=' && "="[0] == '=';
    var o := OPERATORS;
    assert o[1..][0] == "<=" && o[1..][1..][0] == ">" && o[1..][1..][1..][0] == "<";
    assert o[1..][1..][1..][1..][0] == "==" && o[1..][1..][1..][1..][1..][0] == "=";
    var i :| 0 <= i < 6 && o[i] == op;
  }

  // ---- The resolver ----

  /** The download of a release that fits the installed major. */
  function Usable(release: Json, major: int): Option<string> {
    if !release.JObj? then None
    else
      match (Get(release.fields, "download"), Get(release.fields, "platformVersionSpec"))
      case (JStr(download), JStr(spec)) =>
        if download != "" && spec != "" && SpecMatches(spec, major) then Some(download) else None
      case _ => None
  }

  /** A release gives its download, and only if its spec fits the major. */
  lemma UsableExactly(release: Json, major: int, download: string)
    ensures Usable(release, major) == Some(download) <==>
            && release.JObj? && "download" in release.fields && "platformVersionSpec" in release.fields
            && release.fields["download"] == JStr(download) && download != ""
            && exists spec ::
                 release.fields["platformVersionSpec"] == JStr(spec) && spec != "" && SpecMatches(spec, major)
  {
    hide SpecMatches;
  }

  function FirstUsable(releases: seq<Json>, major: int): Option<string> {
    if releases == [] then None
    else if Usable(releases[0], major).Some? then Usable(releases[0], major)
    else FirstUsable(releases[1..], major)
  }

  /** Only the first app of that id counts. */
  function Resolution(apps: seq<Object>, id: string, major: int): Option<string> {
    if apps == [] then None
    else if Get(apps[0], "id") != JStr(id) then Resolution(apps[1..], id, major)
    else
      match Get(apps[0], "releases")
      case JArr(releases) => FirstUsable(releases, major)
      case _ => None
  }

  lemma {:induction false} FirstUsableIs(releases: seq<Json>, major: int)
    ensures match FirstUsable(releases, major)
            case None => forall r <- releases :: Usable(r, major) == None
            case Some(d) =>
              exists j :: 0 <= j < |releases| && Usable(releases[j], major) == Some(d)
                && forall k :: 0 <= k < j ==> Usable(releases[k], major) == None
  {
    hide Usable;
    if releases != [] {
      FirstUsableIs(releases[1..], major);
      assert releases == [releases[0]] + releases[1..];
      if Usable(releases[0], major).None? && FirstUsable(releases[1..], major).Some? {
        var d := FirstUsable(releases[1..], major).value;
        var j :| 0 <= j < |releases[1..]| && Usable(releases[1..][j], major) == Some(d)
                 && forall k :: 0 <= k < j ==> Usable(releases[1..][k], major) == None;
        forall k | 0 <= k < j + 1 ensures Usable(releases[k], major) == None {
          if k > 0 { assert releases[k] == releases[1..][k - 1]; }
        }
        assert releases[j + 1] == releases[1..][j];
      }
    }
  }

  /** The app at an index is the first of its id, and what it resolves to. */
  lemma {:induction false} ResolutionIs(apps: seq<Object>, id: string, major: int, i: nat)
    requires i < |apps| && Get(apps[i], "id") == JStr(id)
    requires forall k :: 0 <= k < i ==> Get(apps[k], "id") != JStr(id)
    ensures Resolution(apps, id, major) ==
            if Get(apps[i], "releases").JArr? then FirstUsable(Get(apps[i], "releases").items, major) else None
  {
    hide Get, FirstUsable;
    if i > 0 {
      assert apps[1..][i - 1] == apps[i];
      ResolutionIs(apps[1..], id, major, i - 1);
    }
  }

  datatype NotProvided = NotProvided(id: string, major: int)

  method ResolveDownload(apps: seq<Object>, id: string, major: int) returns (res: Result<string, NotProvided>)
    ensures res == match Resolution(apps, id, major) case Some(d) => Ok(d) case None => Err(NotProvided(id, major))
  {
    hide SpecMatches, Get;
    for i := 0 to |apps|
      invariant Resolution(apps, id, major) == Resolution(apps[i..], id, major)
    {
      assert apps[i..][0] == apps[i] && apps[i..][1..] == apps[i + 1..];
      if Get(apps[i], "id") != JStr(id) { continue; }
      var found := Get(apps[i], "releases");
      if !found.JArr? { return Err(NotProvided(id, major)); }
      var releases := found.items;
      for j := 0 to |releases|
        invariant FirstUsable(releases, major) == FirstUsable(releases[j..], major)
      {
        var release := releases[j];
        assert releases[j..][0] == release && releases[j..][1..] == releases[j + 1..];
        if !release.JObj? { continue; }
        var download, spec := Get(release.fields, "download"), Get(release.fields, "platformVersionSpec");
        if !download.JStr? || download.s == "" { continue; }
        if !spec.JStr? || spec.s == "" { continue; }
        if SpecMatches(spec.s, major) { return Ok(download.s); }
      }
      return Err(NotProvided(id, major));
    }
    return Err(NotProvided(id, major));
  }
}
