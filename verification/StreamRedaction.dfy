/** Line-by-line redaction of remote output as it arrives (`_StreamLineBuffer` and `_drain_channel`
    in `remote_transport.py`) and the reporter that prints it (`remote.py`). */
module StreamRedaction {
  import opened Text
  import opened EnvFormat
  import opened EnvMerge
  import opened Redaction

  predicate IsAsciiAlnum(c: char) { 'A' <= c <= 'Z' || 'a' <= c <= 'z' || IsDigit(c) }

  /** `str.isalnum` on single characters: fixed on ASCII, whatever Unicode says beyond. */
  type AlnumTable = f: char -> bool | (forall c: char :: c < '\U{80}' ==> (f(c) <==> IsAsciiAlnum(c)))
    witness IsAsciiAlnum

  /** A key whose characters other than underscores are alphanumeric, at least one of them. */
  predicate StreamAssignment(alnum: AlnumTable, line: string) {
    && Contains(line, '=')
    && var k := Replace(KeyOf(line), '_', ""); k != "" && forall i :: 0 <= i < |k| ==> alnum(k[i])
  }

  function RStripCr(s: string): string {
    if s == "" || s[|s| - 1] != '\r' then s else RStripCr(s[..|s| - 1])
  }

  // ---- Text as newline-terminated lines and a rest ----

  function CompleteLines(text: string): seq<string> {
    var i := IndexOf(text, '\n');
    if i == |text| then [] else [RStripCr(text[..i])] + CompleteLines(text[i + 1..])
  }

  function Partial(text: string): string {
    var i := IndexOf(text, '\n');
    if i == |text| then text else Partial(text[i + 1..])
  }

  /** All lines of a text that has ended. */
  function AllLines(text: string): seq<string> {
    CompleteLines(text) + if Partial(text) == "" then [] else [RStripCr(Partial(text))]
  }

  lemma FirstLine(s: string, i: nat)
    requires i < |s| && s[i] == '\n' && forall j :: 0 <= j < i ==> s[j] != '\n'
    ensures CompleteLines(s) == [RStripCr(s[..i])] + CompleteLines(s[i + 1..])
    ensures Partial(s) == Partial(s[i + 1..])
  {
    hide RStripCr;
    assert IndexOf(s, '\n') == i;
  }

  lemma NoLine(s: string)
    requires !Contains(s, '\n')
    ensures CompleteLines(s) == [] && Partial(s) == s
  {
    hide RStripCr;
    assert IndexOf(s, '\n') == |s|;
  }

  lemma {:induction false} SplitAtNewline(a: string, b: string)
    ensures CompleteLines(a + b) == CompleteLines(a) + CompleteLines(Partial(a) + b)
    ensures Partial(a + b) == Partial(Partial(a) + b)
    decreases |a|
  {
    hide RStripCr, CompleteLines, Partial;
    var i := IndexOf(a, '\n');
    if i < |a| {
      SplitAtNewline(a[i + 1..], b);
      FirstLine(a, i);
      assert forall j :: 0 <= j <= i ==> (a + b)[j] == a[j];
      FirstLine(a + b, i);
      assert (a + b)[..i] == a[..i] && (a + b)[i + 1..] == a[i + 1..] + b;
      Regroup([RStripCr(a[..i])], CompleteLines(a[i + 1..]), CompleteLines(Partial(a) + b));
    } else {
      NoLine(a);
    }
  }

  // ---- What is shown of a list of lines ----

  function ShownAt(alnum: AlnumTable, ls: seq<string>, i: nat): string
    requires i < |ls|
  {
    if i > 0 && IsMarker(ls[i - 1]) && StreamAssignment(alnum, ls[i]) then Hide(ls[i]) else ls[i]
  }

  function Shown(alnum: AlnumTable, ls: seq<string>): seq<string> {
    seq(|ls|, i requires 0 <= i < |ls| => ShownAt(alnum, ls, i))
  }

  function Masked(mask: string -> string, ls: seq<string>): seq<string> {
    seq(|ls|, i requires 0 <= i < |ls| => mask(ls[i]))
  }

  /** A stream of one command: (subcommand, stream name). */
  type StreamKey = (string, string)

  datatype Entry = Entry(stream: StreamKey, line: string)

  function Select(entries: seq<Entry>, stream: StreamKey): seq<string> {
    if entries == [] then []
    else
      var e := entries[|entries| - 1];
      Select(entries[..|entries| - 1], stream) + if e.stream == stream then [e.line] else []
  }

  lemma SelectSnoc(entries: seq<Entry>, e: Entry, stream: StreamKey)
    ensures Select(entries + [e], stream)
            == Select(entries, stream) + if e.stream == stream then [e.line] else []
  {
    assert (entries + [e])[..|entries|] == entries;
  }

  lemma ShownSnoc(alnum: AlnumTable, ls: seq<string>, l: string)
    ensures Shown(alnum, ls + [l]) == Shown(alnum, ls) + [ShownAt(alnum, ls + [l], |ls|)]
  {
    hide StreamAssignment, IsMarker, Hide;
    forall i | 0 <= i < |ls| ensures ShownAt(alnum, ls + [l], i) == ShownAt(alnum, ls, i) {
      if i > 0 { assert (ls + [l])[i - 1] == ls[i - 1]; }
    }
  }

  lemma KeyStart(alnum: AlnumTable, line: string)
    requires StreamAssignment(alnum, line)
    ensures KeyOf(line) != "" && KeyOf(line)[0] == line[0] != '#'
  {
    var k := KeyOf(line);
    assert k != "" && (k[0] == '_' || Replace(k, '_', "")[0] == k[0]);
    assert !alnum('#');
  }

  lemma StreamAssignmentIsNoMarker(alnum: AlnumTable, line: string)
    ensures StreamAssignment(alnum, line) ==> !IsMarker(line) && !IsMarker(Hide(line))
  {
    if StreamAssignment(alnum, line) {
      KeyStart(alnum, line);
      hide StreamAssignment, KeyOf;
      assert Hide(line)[0] == KeyOf(line)[0];
      NoHashNoMarker(line);
      NoHashNoMarker(Hide(line));
    }
  }

  lemma NoHashNoMarker(line: string)
    requires line != "" && line[0] != '#'
    ensures !IsMarker(line)
  {
    assert MARKER[0] == '#';
  }

  method NewlineIn(text: string) returns (i: nat)
    requires Contains(text, '\n')
    ensures i < |text| && CompleteLines(text) == [RStripCr(text[..i])] + CompleteLines(text[i + 1..])
    ensures Partial(text) == Partial(text[i + 1..])
  {
    i := IndexOf(text, '\n');
    FirstLine(text, i);
  }

  // ---- The shared output and one buffer per stream ----

  class OutputLog {
    var entries: seq<Entry>
    /** Entries that report progress. */
    ghost var beats: nat

    constructor ()
      ensures entries == [] && beats == 0
    {
      entries, beats := [], 0;
    }

    method Callback(stream: StreamKey, line: string)
      modifies this
      ensures entries == old(entries) + [Entry(stream, line)]
      ensures beats == old(beats) + (if stream.1 == "progress" then 1 else 0)
    {
      entries := entries + [Entry(stream, line)];
      if stream.1 == "progress" { beats := beats + 1; }
    }
  }

  class StreamLineBuffer {
    const stream: StreamKey
    const log: OutputLog
    const alnum: AlnumTable
    const mask: string -> string
    var pending: string
    var redactNext: bool
    /** Where this run's entries start in the log. */
    ghost const base: nat
    /** The text fed and the lines passed on so far. */
    ghost var fed: string
    ghost var lines: seq<string>

    constructor (stream: StreamKey, log: OutputLog, alnum: AlnumTable, mask: string -> string)
      ensures Valid() && Agrees() && fed == "" && lines == [] && base == |log.entries|
      ensures this.stream == stream && this.log == log && this.alnum == alnum && this.mask == mask
    {
      this.stream, this.log, this.alnum, this.mask := stream, log, alnum, mask;
      pending, redactNext := "", false;
      fed, lines, base := "", [], |log.entries|;
      new;
      assert log.entries[base..] == [];
    }

    ghost predicate FlagFits()
      reads this
    {
      redactNext == (lines != [] && IsMarker(lines[|lines| - 1]))
    }

    /** Nothing fed is lost: what is not yet a line is pending. */
    ghost predicate Valid()
      reads this
    {
      FlagFits() && lines == CompleteLines(fed) && pending == Partial(fed)
    }

    method Emit(line: string)
      requires FlagFits()
      modifies this`redactNext, this`lines, log
      ensures stream.1 != "progress" ==> log.beats == old(log.beats)
      ensures FlagFits() && lines == old(lines) + [line]
      ensures log.entries == old(log.entries) + [Entry(stream, mask(ShownAt(alnum, lines, |lines| - 1)))]
    {
      StreamAssignmentIsNoMarker(alnum, line);
      hide StreamAssignment, IsMarker, KeyOf;
      var out := line;
      if redactNext && StreamAssignment(alnum, line) {
        out := KeyOf(line) + "=" + REDACTED;
        redactNext := false;
      } else {
        redactNext := false;
      }
      if IsMarker(out) {
        redactNext := true;
      }
      lines := lines + [line];
      assert lines[..|lines| - 1] == old(lines);
      log.Callback(stream, mask(out));
    }

    /** Since this buffer was made, the log shows its stream's lines, masked, in order. */
    ghost predicate Agrees()
      reads this, log
    {
      && base <= |log.entries|
      && Select(log.entries[base..], stream) == Masked(mask, Shown(alnum, lines))
    }

    /** This step added entries for this stream only. */
    twostate predicate OnlyOurs()
      reads this, log
    {
      && |old(log.entries)| <= |log.entries| && log.entries[..|old(log.entries)|] == old(log.entries)
      && forall i :: |old(log.entries)| <= i < |log.entries| ==> log.entries[i].stream == stream
    }

    method EmitAgreeing(line: string)
      requires FlagFits() && Agrees()
      modifies this`redactNext, this`lines, log
      ensures stream.1 != "progress" ==> log.beats == old(log.beats)
      ensures FlagFits() && Agrees() && lines == old(lines) + [line] && OnlyOurs()
    {
      Emit(line);
      hide ShownAt, IsMarker, Select, Shown, Masked, StreamAssignment, Hide;
      MaskedSnoc(mask, Shown(alnum, old(lines)), ShownAt(alnum, old(lines) + [line], |old(lines)|));
      SelectSnoc(old(log.entries)[base..], log.entries[|old(log.entries)|], stream);
      assert log.entries[base..] == old(log.entries)[base..] + [log.entries[|old(log.entries)|]];
      ShownSnoc(alnum, old(lines), line);
    }

    method EmitCompleteLines()
      requires FlagFits() && Agrees()
      modifies this`pending, this`redactNext, this`lines, log
      ensures stream.1 != "progress" ==> log.beats == old(log.beats)
      ensures FlagFits() && Agrees() && OnlyOurs()
      ensures lines == old(lines) + CompleteLines(old(pending)) && pending == Partial(old(pending))
    {
      hide IsMarker, RStripCr, Select, Masked, Shown, CompleteLines, Partial;
      while Contains(pending, '\n')
        invariant FlagFits() && Agrees() && OnlyOurs()
        invariant stream.1 != "progress" ==> log.beats == old(log.beats)
        invariant Partial(pending) == Partial(old(pending))
        invariant lines + CompleteLines(pending) == old(lines) + CompleteLines(old(pending))
        decreases |pending|
      {
        ghost var before, were := pending, lines;
        var i := NewlineIn(pending);
        var line := pending[..i];
        pending := pending[i + 1..];
        EmitAgreeing(RStripCr(line));
        Regroup(were, [RStripCr(line)], CompleteLines(pending));
      }
      NoLine(pending);
    }

    method Feed(text: string) returns (r: string)
      requires Valid() && Agrees()
      modifies this, log
      ensures stream.1 != "progress" ==> log.beats == old(log.beats)
      ensures Valid() && Agrees() && OnlyOurs()
      ensures r == text && fed == old(fed) + text
    {
      SplitAtNewline(fed, text);
      hide CompleteLines, Partial, Select, Masked, Shown;
      fed := fed + text;
      pending := pending + text;
      EmitCompleteLines();
      return text;
    }

    method Flush()
      requires Valid() && Agrees()
      modifies this, log
      ensures stream.1 != "progress" ==> log.beats == old(log.beats)
      ensures Agrees() && OnlyOurs() && pending == "" && fed == old(fed) && lines == AllLines(fed)
    {
      if pending != "" {
        EmitAgreeing(RStripCr(pending));
        pending := "";
      }
    }
  }

  lemma MaskedSnoc(mask: string -> string, ls: seq<string>, l: string)
    ensures Masked(mask, ls + [l]) == Masked(mask, ls) + [mask(l)]
  {}

  lemma {:induction false} SelectOther(entries: seq<Entry>, more: seq<Entry>, stream: StreamKey)
    requires forall i :: 0 <= i < |more| ==> more[i].stream != stream
    ensures Select(entries + more, stream) == Select(entries, stream)
  {
    hide Select;
    if more == [] {
      assert entries + more == entries;
    } else {
      var n := |more| - 1;
      SelectOther(entries, more[..n], stream);
      SelectSnoc(entries + more[..n], more[n], stream);
      Regroup(entries, more[..n], [more[n]]);
      assert more == more[..n] + [more[n]];
    }
  }

  /** Entries of other streams leave a buffer's part of the log as it was. */
  twostate lemma AgreesAmidOthers(b: StreamLineBuffer)
    requires old(b.Agrees()) && old(b.lines) == b.lines
    requires |old(b.log.entries)| <= |b.log.entries|
    requires b.log.entries[..|old(b.log.entries)|] == old(b.log.entries)
    requires forall i :: |old(b.log.entries)| <= i < |b.log.entries| ==> b.log.entries[i].stream != b.stream
    ensures b.Agrees()
  {
    hide Select, Masked, Shown;
    var n := |old(b.log.entries)|;
    SelectOther(old(b.log.entries)[b.base..], b.log.entries[n..], b.stream);
    assert b.log.entries[b.base..] == old(b.log.entries)[b.base..] + b.log.entries[n..];
  }

  /** The remote channel: decoded chunks that have arrived and not been read. */
  class Channel {
    var stdout: seq<string>
    var stderr: seq<string>

    constructor ()
      ensures stdout == [] && stderr == []
    {
      stdout, stderr := [], [];
    }
  }

  ghost predicate Ready(out: StreamLineBuffer, err: StreamLineBuffer)
    reads out, err, out.log, err.log
  {
    && out.log == err.log && out != err && out.stream != err.stream
    && out.Valid() && err.Valid() && out.Agrees() && err.Agrees()
  }

  method FeedBeside(fed: StreamLineBuffer, other: StreamLineBuffer, text: string) returns (r: string)
    requires Ready(fed, other)
    modifies fed, fed.log
    ensures fed.stream.1 != "progress" ==> fed.log.beats == old(fed.log.beats)
    ensures Ready(fed, other) && r == text && fed.fed == old(fed.fed) + text
  {
    hide Select, Masked, Shown, CompleteLines, Partial, IsMarker;
    r := fed.Feed(text);
    AgreesAmidOthers(other);
  }

  method FlushBeside(buffer: StreamLineBuffer, other: StreamLineBuffer)
    requires buffer.log == other.log && buffer != other && buffer.stream != other.stream
    requires buffer.Valid() && buffer.Agrees() && other.Agrees()
    modifies buffer, buffer.log
    ensures buffer.stream.1 != "progress" ==> buffer.log.beats == old(buffer.log.beats)
    ensures buffer.Agrees() && other.Agrees()
    ensures buffer.pending == "" && buffer.fed == old(buffer.fed) && buffer.lines == AllLines(buffer.fed)
  {
    hide Select, Masked, Shown, CompleteLines, Partial, IsMarker;
    buffer.Flush();
    AgreesAmidOthers(other);
  }

  method EmitHeartbeat(log: OutputLog, subcommand: string, out: StreamLineBuffer, err: StreamLineBuffer)
    requires Ready(out, err) && log == out.log
    requires out.stream.1 != "progress" && err.stream.1 != "progress"
    modifies log
    ensures Ready(out, err) && log.beats == old(log.beats) + 1
  {
    hide Select, Masked, Shown, CompleteLines, Partial, IsMarker;
    log.Callback((subcommand, "progress"), "still running");
    AgreesAmidOthers(out);
    AgreesAmidOthers(err);
  }

  /** What a drain takes from a queue: the chunks before the first empty one. */
  function Taken(queue: seq<string>): string {
    if queue == [] || queue[0] == "" then "" else queue[0] + Taken(queue[1..])
  }

  /** What it leaves: the chunks after the first empty one. */
  function Left(queue: seq<string>): seq<string> {
    if queue == [] then [] else if queue[0] == "" then queue[1..] else Left(queue[1..])
  }

  /** Nothing is lost, and nothing is left when no chunk is empty. */
  lemma {:induction false} TakenAndLeft(queue: seq<string>)
    ensures Concat(queue) == Taken(queue) + Concat(Left(queue))
    ensures "" !in queue ==> Left(queue) == []
  {
    if queue != [] && queue[0] != "" {
      TakenAndLeft(queue[1..]);
      Regroup(queue[0], Taken(queue[1..]), Concat(Left(queue[1..])));
      assert queue == [queue[0]] + queue[1..];
    }
  }

  /** One side of a drain: reads until the queue is empty or an empty chunk comes. */
  method DrainSide(queue: seq<string>, buffer: StreamLineBuffer, other: StreamLineBuffer)
    returns (rest: seq<string>, drained: bool, text: string)
    requires Ready(buffer, other)
    modifies buffer, buffer.log
    ensures buffer.stream.1 != "progress" ==> buffer.log.beats == old(buffer.log.beats)
    ensures Ready(buffer, other) && buffer.fed == old(buffer.fed) + text
    ensures text == Taken(queue) && rest == Left(queue)
    ensures drained <==> text != ""
  {
    hide Ready;
    rest, drained, text := queue, false, "";
    while rest != []
      invariant Ready(buffer, other) && buffer.fed == old(buffer.fed) + text
      invariant Taken(queue) == text + Taken(rest) && Left(queue) == Left(rest)
      invariant drained <==> text != ""
      invariant buffer.stream.1 != "progress" ==> buffer.log.beats == old(buffer.log.beats)
      decreases |rest|
    {
      var data := rest[0];
      Regroup(text, data, Taken(rest[1..]));
      rest := rest[1..];
      if data == "" { return; }
      var part := FeedBeside(buffer, other, data);
      Regroup(old(buffer.fed), text, part);
      text := text + part;
      drained := true;
    }
  }

  method DrainChannel(channel: Channel, out: StreamLineBuffer, err: StreamLineBuffer)
    returns (drained: bool, outText: string, errText: string)
    requires Ready(out, err)
    modifies channel, out, err, out.log
    ensures out.stream.1 != "progress" && err.stream.1 != "progress" ==> out.log.beats == old(out.log.beats)
    ensures Ready(out, err)
    ensures out.fed == old(out.fed) + outText && err.fed == old(err.fed) + errText
    ensures outText == Taken(old(channel.stdout)) && channel.stdout == Left(old(channel.stdout))
    ensures errText == Taken(old(channel.stderr)) && channel.stderr == Left(old(channel.stderr))
    ensures drained <==> outText != "" || errText != ""
  {
    hide Taken, Left;
    var outDrained, errDrained, rest;
    rest, outDrained, outText := DrainSide(channel.stdout, out, err);
    channel.stdout := rest;
    rest, errDrained, errText := DrainSide(channel.stderr, err, out);
    channel.stderr := rest;
    drained := outDrained || errDrained;
  }

  /** What has arrived on one side after the first `n` rounds. */
  function Arrived(rounds: seq<seq<string>>, n: nat): string
    requires n <= |rounds|
  {
    if n == 0 then "" else Arrived(rounds, n - 1) + Concat(rounds[n - 1])
  }

  /** The first `n` rounds bring no empty chunk. */
  predicate NoEmptyChunk(rounds: seq<seq<string>>, n: nat)
    requires n <= |rounds|
  {
    n == 0 || (NoEmptyChunk(rounds, n - 1) && "" !in rounds[n - 1])
  }

  /** Newly arrived chunks join the queues, and the queues are drained. */
  method PumpRound(channel: Channel, out: StreamLineBuffer, err: StreamLineBuffer,
                   newOut: seq<string>, newErr: seq<string>)
    returns (drained: bool, outPart: string, errPart: string)
    requires Ready(out, err)
    modifies channel, out, err, out.log
    ensures out.stream.1 != "progress" && err.stream.1 != "progress" ==> out.log.beats == old(out.log.beats)
    ensures drained <==> outPart != "" || errPart != ""
    ensures Ready(out, err)
    ensures out.fed == old(out.fed) + outPart && err.fed == old(err.fed) + errPart
    ensures Concat(old(channel.stdout)) + Concat(newOut) == outPart + Concat(channel.stdout)
    ensures Concat(old(channel.stderr)) + Concat(newErr) == errPart + Concat(channel.stderr)
    ensures old(channel.stdout) == [] && "" !in newOut ==> channel.stdout == []
    ensures old(channel.stderr) == [] && "" !in newErr ==> channel.stderr == []
  {
    hide Concat, Select, Masked, Shown, CompleteLines, Partial, IsMarker;
    TakenAndLeft(channel.stdout + newOut);
    TakenAndLeft(channel.stderr + newErr);
    ConcatAppend(channel.stdout, newOut);
    ConcatAppend(channel.stderr, newErr);
    channel.stdout := channel.stdout + newOut;
    channel.stderr := channel.stderr + newErr;
    drained, outPart, errPart := DrainChannel(channel, out, err);
  }

  lemma Account(total: string, text: string, queued: string, arrived: string, part: string, left: string)
    requires total == text + queued && queued + arrived == part + left
    ensures total + arrived == text + part + left
  {
    assert text + queued + arrived == text + (queued + arrived);
    assert text + (part + left) == text + part + left;
  }

  /** The polling loop: heartbeats may come between idle rounds, the last round is the drain after the
      exit status. */
  method PumpRounds(subcommand: string, channel: Channel, out: StreamLineBuffer, err: StreamLineBuffer,
                    outRounds: seq<seq<string>>, errRounds: seq<seq<string>>)
    returns (outText: string, errText: string)
    requires Ready(out, err) && out.stream.1 != "progress" && err.stream.1 != "progress"
    requires |outRounds| == |errRounds| && channel.stdout == channel.stderr == []
    modifies channel, out, err, out.log
    ensures Ready(out, err)
    ensures out.fed == old(out.fed) + outText && err.fed == old(err.fed) + errText
    ensures Arrived(outRounds, |outRounds|) == outText + Concat(channel.stdout)
    ensures Arrived(errRounds, |errRounds|) == errText + Concat(channel.stderr)
    ensures NoEmptyChunk(outRounds, |outRounds|) ==> channel.stdout == []
    ensures NoEmptyChunk(errRounds, |errRounds|) ==> channel.stderr == []
    ensures NoEmptyChunk(outRounds, |outRounds|) && NoEmptyChunk(errRounds, |errRounds|) ==>
              out.log.beats <= old(out.log.beats) + Idle(outRounds, errRounds, |outRounds|)
  {
    hide Ready;
    outText, errText := "", "";
    for i := 0 to |outRounds|
      invariant Ready(out, err)
      invariant out.fed == old(out.fed) + outText && err.fed == old(err.fed) + errText
      invariant Arrived(outRounds, i) == outText + Concat(channel.stdout)
      invariant Arrived(errRounds, i) == errText + Concat(channel.stderr)
      invariant NoEmptyChunk(outRounds, i) ==> channel.stdout == []
      invariant NoEmptyChunk(errRounds, i) ==> channel.stderr == []
      invariant NoEmptyChunk(outRounds, i) && NoEmptyChunk(errRounds, i) ==>
                  out.log.beats <= old(out.log.beats) + Idle(outRounds, errRounds, i)
    {
      NothingFromNothing(outRounds[i]);
      NothingFromNothing(errRounds[i]);
      hide Concat;
      ghost var outQueued, errQueued := Concat(channel.stdout), Concat(channel.stderr);
      var drained, outPart, errPart := PumpRound(channel, out, err, outRounds[i], errRounds[i]);
      Account(Arrived(outRounds, i), outText, outQueued, Concat(outRounds[i]), outPart, Concat(channel.stdout));
      Account(Arrived(errRounds, i), errText, errQueued, Concat(errRounds[i]), errPart, Concat(channel.stderr));
      Regroup(old(out.fed), outText, outPart);
      Regroup(old(err.fed), errText, errPart);
      outText := outText + outPart;
      errText := errText + errPart;
      if !drained && i < |outRounds| - 1 {
        if * { EmitHeartbeat(out.log, subcommand, out, err); }
      }
    }
  }

  /** The rounds that bring nothing, the last one aside. */
  function Idle(outRounds: seq<seq<string>>, errRounds: seq<seq<string>>, n: nat): nat
    requires n <= |outRounds| == |errRounds|
  {
    if n == 0 then 0
    else
      Idle(outRounds, errRounds, n - 1)
      + if n < |outRounds| && outRounds[n - 1] == [] && errRounds[n - 1] == [] then 1 else 0
  }

  lemma NothingFromNothing(chunks: seq<string>)
    ensures Concat([]) == "" && ("" !in chunks && Concat(chunks) == "" ==> chunks == [])
  {
    if chunks != [] { assert chunks[0] in chunks; }
  }

  /** Streaming one command: however the two texts were cut into chunks and interleaved, the log then
      shows exactly their lines, stream by stream. Everything that arrived is read, unless an empty
      chunk cut a drain short; then the rest is still in the channel. */
  method StreamCommandOutput(subcommand: string, outRounds: seq<seq<string>>, errRounds: seq<seq<string>>,
                             log: OutputLog, alnum: AlnumTable, mask: string -> string)
    returns (outText: string, errText: string, ghost outLeft: string, ghost errLeft: string)
    requires |outRounds| == |errRounds|
    modifies log
    ensures |old(log.entries)| <= |log.entries|
    ensures Select(log.entries[|old(log.entries)|..], (subcommand, "stdout"))
            == Masked(mask, Shown(alnum, AllLines(outText)))
    ensures Select(log.entries[|old(log.entries)|..], (subcommand, "stderr"))
            == Masked(mask, Shown(alnum, AllLines(errText)))
    ensures Arrived(outRounds, |outRounds|) == outText + outLeft
    ensures Arrived(errRounds, |errRounds|) == errText + errLeft
    ensures NoEmptyChunk(outRounds, |outRounds|) ==> outText == Arrived(outRounds, |outRounds|)
    ensures NoEmptyChunk(errRounds, |errRounds|) ==> errText == Arrived(errRounds, |errRounds|)
    ensures NoEmptyChunk(outRounds, |outRounds|) && NoEmptyChunk(errRounds, |errRounds|) ==>
              log.beats <= old(log.beats) + Idle(outRounds, errRounds, |outRounds|)
  {
    hide NoEmptyChunk, Idle;
    hide Select, Masked, Shown, CompleteLines, Partial, IsMarker, AllLines, Concat, Arrived;
    var out := new StreamLineBuffer((subcommand, "stdout"), log, alnum, mask);
    var err := new StreamLineBuffer((subcommand, "stderr"), log, alnum, mask);
    var channel := new Channel();
    outText, errText := PumpRounds(subcommand, channel, out, err, outRounds, errRounds);
    outLeft, errLeft := Concat(channel.stdout), Concat(channel.stderr);
    assert out.fed == outText && err.fed == errText;
    NothingQueued(outText);
    NothingQueued(errText);
    FlushBoth(out, err);
  }

  lemma NothingQueued(text: string)
    ensures text + Concat([]) == text
  {}

  method FlushBoth(out: StreamLineBuffer, err: StreamLineBuffer)
    requires Ready(out, err)
    modifies out, err, out.log
    ensures out.stream.1 != "progress" && err.stream.1 != "progress" ==> out.log.beats == old(out.log.beats)
    ensures out.Agrees() && err.Agrees()
    ensures out.lines == AllLines(old(out.fed)) && err.lines == AllLines(old(err.fed))
  {
    hide Select, Masked, Shown, CompleteLines, Partial, IsMarker, AllLines;
    FlushBeside(out, err);
    FlushBeside(err, out);
  }

  // ---- The reporter ----

  /** What the reporter makes of entry `i`, given the entry before it on the same stream. */
  function ReportAt(alnum: AlnumTable, es: seq<Entry>, i: nat): string
    requires i < |es|
  {
    if BelowMarker(es[..i], es[i].stream) && StreamAssignment(alnum, es[i].line)
    then Hide(es[i].line) else es[i].line
  }

  /** The last entry of a stream is a marker. */
  predicate BelowMarker(es: seq<Entry>, key: StreamKey) {
    var earlier := Select(es, key); earlier != [] && IsMarker(earlier[|earlier| - 1])
  }

  lemma BelowMarkerSnoc(es: seq<Entry>, e: Entry, key: StreamKey)
    ensures BelowMarker(es + [e], key) <==> if e.stream == key then IsMarker(e.line) else BelowMarker(es, key)
  {
    hide Select, IsMarker;
    SelectSnoc(es, e, key);
  }

  /** What a verbose reporter with the given mask prints of the entries it hears. */
  function Printed(alnum: AlnumTable, mask: string -> string, es: seq<Entry>): seq<Entry> {
    seq(|es|, i requires 0 <= i < |es| => Entry(es[i].stream, mask(ReportAt(alnum, es, i))))
  }

  lemma PrintedSnoc(alnum: AlnumTable, mask: string -> string, es: seq<Entry>, e: Entry)
    ensures Printed(alnum, mask, es + [e])
            == Printed(alnum, mask, es) + [Entry(e.stream, mask(ReportAt(alnum, es + [e], |es|)))]
  {
    hide BelowMarker, StreamAssignment, Hide;
    forall i | 0 <= i < |es| ensures ReportAt(alnum, es + [e], i) == ReportAt(alnum, es, i) {
      assert (es + [e])[..i] == es[..i];
    }
  }

  class RemoteProgressReporter {
    const verbose: bool
    const alnum: AlnumTable
    const mask: string -> string
    var redactNext: map<StreamKey, bool>
    var printed: seq<Entry>
    ghost var heard: seq<Entry>

    constructor (verbose: bool, alnum: AlnumTable, mask: string -> string)
      ensures Valid() && heard == []
      ensures this.verbose == verbose && this.alnum == alnum && this.mask == mask
    {
      this.verbose, this.alnum, this.mask := verbose, alnum, mask;
      redactNext, printed, heard := map[], [], [];
    }

    predicate Flag(key: StreamKey)
      reads this
    {
      key in redactNext && redactNext[key]
    }

    ghost predicate Valid()
      reads this
    {
      FlagsAgree() && printed == Printed(alnum, mask, heard)
    }

    ghost predicate FlagsAgree()
      reads this
    {
      forall key :: Flag(key) <==> BelowMarker(heard, key)
    }

    method RedactRemoteOutputLine(key: StreamKey, line: string) returns (shown: string)
      requires FlagsAgree()
      modifies this`redactNext, this`heard
      ensures FlagsAgree() && heard == old(heard) + [Entry(key, line)]
      ensures shown == ReportAt(alnum, heard, |heard| - 1)
    {
      StreamAssignmentIsNoMarker(alnum, line);
      hide StreamAssignment, IsMarker, KeyOf, BelowMarker;
      shown := line;
      ghost var before := heard;
      heard := heard + [Entry(key, line)];
      assert heard[..|heard| - 1] == before;
      forall k
        ensures BelowMarker(heard, k) <==> if k == key then IsMarker(line) else BelowMarker(before, k)
      {
        BelowMarkerSnoc(before, Entry(key, line), k);
      }
      if Flag(key) {
        redactNext := redactNext[key := false];
        if StreamAssignment(alnum, line) {
          return KeyOf(line) + "=" + REDACTED;
        }
      }
      if IsMarker(line) {
        redactNext := redactNext[key := true];
      }
    }

    /** Prints the line masked once more; a reporter that is not verbose hears and prints nothing. */
    method RemoteOutput(key: StreamKey, line: string)
      requires Valid()
      modifies this
      ensures Valid() && heard == if verbose then old(heard) + [Entry(key, line)] else old(heard)
    {
      hide ReportAt, Select, IsMarker, Printed, BelowMarker;
      if !verbose { return; }
      PrintedSnoc(alnum, mask, heard, Entry(key, line));
      var shown := RedactRemoteOutputLine(key, line);
      printed := printed + [Entry(key, mask(shown))];
    }
  }

  lemma {:induction false} SelectPosition(es: seq<Entry>, i: nat)
    requires i < |es|
    ensures var key := es[i].stream;
            && |Select(es[..i], key)| < |Select(es, key)|
            && Select(es[..i], key) == Select(es, key)[..|Select(es[..i], key)|]
            && Select(es, key)[|Select(es[..i], key)|] == es[i].line
  {
    var n := |es| - 1;
    if i < n {
      SelectPosition(es[..n], i);
      assert es[..n][..i] == es[..i];
    }
  }

  lemma MaskedAt(alnum: AlnumTable, mask: string -> string, ls: seq<string>)
    ensures |Masked(mask, Shown(alnum, ls))| == |ls|
    ensures forall k :: 0 <= k < |ls| ==> Masked(mask, Shown(alnum, ls))[k] == mask(ShownAt(alnum, ls, k))
  {
    hide ShownAt;
  }

  // ---- Streaming against the batch redactor ----

  /** A line as the buffer emits them: without a newline, and without a carriage return at its end. */
  predicate IsLine(s: string) { !Contains(s, '\n') && (s != "" ==> s[|s| - 1] != '\r') }

  lemma AllLinesCons(head: string, rest: string)
    requires IsLine(head)
    ensures AllLines(head + "\n" + rest) == [head] + AllLines(rest)
  {
    assert RStripCr(head) == head;
    var text := head + "\n" + rest;
    assert text[|head|] == '\n' && forall j :: 0 <= j < |head| ==> text[j] == head[j];
    FirstLine(text, |head|);
    assert text[..|head|] == head && text[|head| + 1..] == rest;
    hide CompleteLines, Partial;
    Regroup([head], CompleteLines(rest), if Partial(rest) == "" then [] else [RStripCr(Partial(rest))]);
  }

  function Returns(n: nat): string { seq(n, i => '\r') }

  lemma {:induction false} ReturnsGo(l: string, n: nat)
    requires l != "" ==> l[|l| - 1] != '\r'
    ensures RStripCr(l + Returns(n)) == l
  {
    if n == 0 {
      assert l + Returns(0) == l;
    } else {
      var s := l + Returns(n);
      assert s[|s| - 1] == '\r' && s[..|s| - 1] == l + Returns(n - 1);
      ReturnsGo(l, n - 1);
    }
  }

  /** Whatever carriage returns stand before the newline that ends it, a line comes out without them and
      with everything else. */
  lemma LineComesOut(l: string, n: nat, rest: string)
    requires IsLine(l)
    ensures AllLines(l + Returns(n) + "\n" + rest) == [l] + AllLines(rest)
  {
    ReturnsGo(l, n);
    var head := l + Returns(n);
    var text := head + "\n" + rest;
    assert text[|head|] == '\n' && forall j :: 0 <= j < |head| ==> text[j] == head[j] && head[j] != '\n';
    FirstLine(text, |head|);
    assert text[..|head|] == head && text[|head| + 1..] == rest;
    hide CompleteLines, Partial, RStripCr;
    Regroup([l], CompleteLines(rest), if Partial(rest) == "" then [] else [RStripCr(Partial(rest))]);
  }

  /** So does a last line that no newline ends. */
  lemma LastLineComesOut(l: string, n: nat)
    requires IsLine(l)
    ensures AllLines(l + Returns(n)) == if l + Returns(n) == "" then [] else [l]
  {
    ReturnsGo(l, n);
    var head := l + Returns(n);
    assert forall j :: 0 <= j < |head| ==> head[j] != '\n';
    NoLine(head);
  }

  /** An assignment has a key of letters and digits, and underscores but not only those, up to its first
      equality sign. */
  lemma StreamAssignmentIs(alnum: AlnumTable, line: string)
    ensures StreamAssignment(alnum, line) <==> exists n :: SignAt(line, n) && KeyChars(alnum, line[..n])
                                                           && exists c <- line[..n] :: c != '_'
  {
    hide Replace;
    if Contains(line, '=') {
      KeyCharsOnly(alnum, KeyOf(line));
      assert SignAt(line, |KeyOf(line)|) && line[..|KeyOf(line)|] == KeyOf(line);
    }
    if StreamAssignment(alnum, line) { LettersOf(alnum, Replace(KeyOf(line), '_', "")); }
    if n :| SignAt(line, n) && KeyChars(alnum, line[..n]) && exists c <- line[..n] :: c != '_' {
      KeyAt(line, n);
      KeyCharsOnly(alnum, line[..n]);
      LettersOf(alnum, Replace(KeyOf(line), '_', ""));
    }
  }

  lemma LettersOf(alnum: AlnumTable, k: string)
    ensures (forall c <- k :: alnum(c)) <==> forall i :: 0 <= i < |k| ==> alnum(k[i])
  {
    assert forall i :: 0 <= i < |k| ==> k[i] in k;
  }

  lemma KeyAt(line: string, n: nat)
    requires SignAt(line, n)
    ensures Contains(line, '=') && KeyOf(line) == line[..n]
  {
    assert IndexOf(line, '=') == n;
  }

  lemma HiddenIs(line: string, n: nat)
    requires SignAt(line, n)
    ensures Hide(line) == line[..n] + "=<REDACTED>"
  {
    KeyAt(line, n);
    Regroup(line[..n], "=", REDACTED);
    assert "=" + REDACTED == "=<REDACTED>";
  }

  predicate KeyChars(alnum: AlnumTable, k: string) { forall i :: 0 <= i < |k| ==> k[i] == '_' || alnum(k[i]) }

  lemma {:induction false} LettersKept(k: string, c: char)
    ensures c in Replace(k, '_', "") <==> c in k && c != '_'
  {
    if k != "" {
      LettersKept(k[1..], c);
      assert k == [k[0]] + k[1..];
      assert c in Replace(k, '_', "") <==> (k[0] != '_' && c == k[0]) || c in Replace(k[1..], '_', "");
    }
  }

  lemma KeyCharsOnly(alnum: AlnumTable, k: string)
    ensures KeyChars(alnum, k) <==> forall c <- Replace(k, '_', "") :: alnum(c)
    ensures Replace(k, '_', "") != "" <==> exists c <- k :: c != '_'
  {
    var r := Replace(k, '_', "");
    hide Replace;
    forall c: char ensures c in r <==> c in k && c != '_' { LettersKept(k, c); }
    assert KeyChars(alnum, k) <==> forall c <- k :: c == '_' || alnum(c) by {
      assert forall i :: 0 <= i < |k| ==> k[i] in k;
    }
    if r != "" { assert r[0] in r; }
  }

  lemma AllLinesOfRest(text: string)
    requires NoBreak(text)
    ensures AllLines(text) == if text == "" then [] else [text]
    ensures Pieces(text) == if text == "" then [] else [Piece(text, "")]
  {
    NoCrStays(text);
    NoLine(text);
    assert BreakAt(text) == |text|;
  }

  lemma {:induction false} PiecesAreAllLines(text: string)
    requires OnlyNewlineBreaks(text)
    ensures Bodies(Pieces(text)) == AllLines(text)
    ensures forall p <- Pieces(text) :: p.ending in {"", "\n"}
    decreases |text|
  {
    var i := IndexOf(text, '\n');
    if i < |text| {
      var head, rest := text[..i], text[i + 1..];
      assert OnlyNewlineBreaks(rest) && NoBreak(head);
      assert text == head + "\n" + rest;
      PiecesAreAllLines(rest);
      NoCrStays(head);
      hide Pieces, AllLines, NoBreak, Bodies;
      AllLinesCons(head, rest);
      PiecesCons(head, rest);
      BodiesAppend([Piece(head, "\n")], Pieces(rest));
      OneBody(Piece(head, "\n"));
    } else {
      assert NoBreak(text);
      AllLinesOfRest(text);
    }
  }

  lemma OneBody(p: Piece)
    ensures Bodies([p]) == [p.body]
  {}

  lemma NoCrStays(s: string)
    requires NoBreak(s)
    ensures RStripCr(s) == s && IsLine(s)
  {
    assert s != "" ==> s[|s| - 1] != '\r';
    assert !Contains(s, '\n');
  }

  /** The two redactors take the same decision on line `i`. */
  predicate SameDecision(alnum: AlnumTable, ls: seq<string>, i: nat)
    requires i < |ls|
  {
    i > 0 && IsMarker(ls[i - 1]) ==>
      (LooksLikeEnvAssignment(ls[i]) <==> StreamAssignment(alnum, ls[i])) || ls[i] == Hide(ls[i])
  }

  /** For a text whose only breaks are newlines, the streamed lines are the batch redactor's lines
      exactly when the two agree on what an assignment is, below every marker. */
  lemma StreamEqualsBatchExactly(alnum: AlnumTable, text: string)
    requires OnlyNewlineBreaks(text)
    ensures Lines(Redact(text)) == Shown(alnum, AllLines(text))
            <==> forall i :: 0 <= i < |AllLines(text)| ==> SameDecision(alnum, AllLines(text), i)
  {
    var ps, ls := Pieces(text), AllLines(text);
    PlainBodies(text);
    PiecesOfRedacted(text);
    hide Pieces, AllLines, Redact, StreamAssignment, LooksLikeEnvAssignment, IsMarker, Hide, LineBody, LineEnding,
      OnlyNewlineBreaks, KeepsBreaks;
    BodiesOfRedacted(text);
    ShownElements(alnum, ls);
    hide Lines, RedactAt, RedactPieces, Shown;
    forall i | 0 <= i < |ls|
      ensures Lines(Redact(text))[i] == Shown(alnum, ls)[i] <==> SameDecision(alnum, ls, i)
    {
      BatchLine(ps, ls, i);
    }
    PointwiseEqual(alnum, Lines(Redact(text)), Shown(alnum, ls), ls);
  }

  lemma ShownElements(alnum: AlnumTable, ls: seq<string>)
    ensures |Shown(alnum, ls)| == |ls|
    ensures forall i :: 0 <= i < |ls| ==> Shown(alnum, ls)[i] == ShownAt(alnum, ls, i)
  {
    hide ShownAt;
  }

  lemma BodiesOfRedacted(text: string)
    requires Pieces(Redact(text)) == RedactPieces(Pieces(text))
    ensures var ps := Pieces(text);
            && |Lines(Redact(text))| == |ps|
            && forall i :: 0 <= i < |ps| ==> Lines(Redact(text))[i] == RedactAt(ps, i).body
  {
    hide Pieces, Redact, RedactAt;
  }

  lemma PointwiseEqual(alnum: AlnumTable, a: seq<string>, b: seq<string>, ls: seq<string>)
    requires |a| == |b| == |ls|
    requires forall i :: 0 <= i < |ls| ==> (a[i] == b[i] <==> SameDecision(alnum, ls, i))
    ensures a == b <==> forall i :: 0 <= i < |ls| ==> SameDecision(alnum, ls, i)
  {
    hide SameDecision;
    if forall i :: 0 <= i < |ls| ==> SameDecision(alnum, ls, i) {
      assert forall i :: 0 <= i < |ls| ==> a[i] == b[i];
    }
  }

  lemma PlainBodies(text: string)
    requires OnlyNewlineBreaks(text)
    ensures var ps, ls := Pieces(text), AllLines(text);
            && |ps| == |ls| && KeepsBreaks(ps)
            && forall i :: 0 <= i < |ps| ==> LineBody(ps[i]) == ls[i] == ps[i].body
  {
    PiecesAreAllLines(text);
    PiecesAreWellSplit(text);
    hide AllLines, Pieces, LooksLikeEnvAssignment, IsMarker;
    var ps := Pieces(text);
    assert |ps| == |Bodies(ps)|;
    forall i | 0 <= i < |ps|
      ensures LineBody(ps[i]) == ps[i].body == AllLines(text)[i] && LineEnding(ps[i]) == ps[i].ending
    {
      assert ps[i] in ps && Bodies(ps)[i] == ps[i].body;
      BodyOfPiece(ps[i]);
    }
  }

  lemma BatchLine(ps: seq<Piece>, ls: seq<string>, i: nat)
    requires |ps| == |ls| && i < |ls|
    requires forall j :: 0 <= j < |ps| ==> LineBody(ps[j]) == ls[j] == ps[j].body
    ensures RedactAt(ps, i).body ==
            if i > 0 && IsMarker(ls[i - 1]) && LooksLikeEnvAssignment(ls[i]) then Hide(ls[i]) else ls[i]
  {
    hide LineBody, LineEnding, IsMarker, LooksLikeEnvAssignment, Hide;
  }

  /** They agree on every key that is an identifier with a letter or a digit. */
  lemma ProperKeysAgree(alnum: AlnumTable, line: string)
    requires Contains(line, '=') && IsIdentifier(KeyOf(line))
    requires exists c <- KeyOf(line) :: c != '_'
    ensures LooksLikeEnvAssignment(line) && StreamAssignment(alnum, line)
  {
    var k := KeyOf(line);
    assert line[0] == k[0] && LStrip(line) == line;
    UnderscoresGone(k);
    var r := Replace(k, '_', "");
    forall i | 0 <= i < |r| ensures alnum(r[i]) {
      assert r[i] in r && r[i] in k;
    }
  }

  lemma {:induction false} UnderscoresGone(k: string)
    ensures forall c <- Replace(k, '_', "") :: c in k && c != '_'
    ensures (exists c <- k :: c != '_') ==> Replace(k, '_', "") != ""
  {
    if k != "" {
      UnderscoresGone(k[1..]);
      assert k == [k[0]] + k[1..];
    }
  }
}
