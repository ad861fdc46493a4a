# Verified model of the Dokploy wizard's core

The wizard installs and reconciles self-hosted packs on a Dokploy server. This project models the parts of it that decide
what is written, hidden, created and skipped, and proves what they promise. Every modelled loop is a method proved
against a specification; the specifications are then related to each other by lemmas.

| module | models |
|---|---|
| `Text` | the Python string primitives used: `splitlines`, `strip`, `split`, `find`, code-point order |
| `EnvFormat`, `EnvMerge`, `EnvReader` | the env-block format, the merge of a block into existing env text, and reading it back |
| `MergeByValue` | when merges agree with each other, value by value |
| `ComposeValidation`, `ComposeGrammar`, `LeakService` | validation of a rendered compose text against its env specs, the payload built from it, what counts as a placeholder and a service header, and the service named in an error |
| `Redaction`, `RedactionTwice`, `RedactionOfLists` | the batch redactor, when redacting twice is redacting once, and which lists of values it hides |
| `StreamRedaction` | the chunk-fed streaming redactor and the reporter behind it |
| `ReporterLog`, `PasswordMask` | when the reporter prints what was logged, for any mask and for the password replacement |
| `SecretScan` | the artifact leak scan |
| `ComposeApply`, `NextcloudBackend` | applying a render with the no-op guard, and the backend object over whole runs |
| `ExternalStorage`, `MountConflicts` | reconciliation of Nextcloud mounts, and which contracts get in each other's way |
| `RescanSchedules` | reconciliation of rescan schedules |
| `PlanModels`, `Planner`, `PlanContents`, `SharedCore` | the shared-core plan codec, planner, what a plan says, reconciler and ownership ledger |
| `AppStore` | platform version specs and the release resolver |

Servers, the checkpoint and the scheduler are classes whose state outlives a run. Each of their calls may fail before or
after it takes effect, so a run can be cut anywhere; what a method promises on an error is what holds after such a cut.
They count the calls that failed, and the operations on them fail for no other reason than those stated.

## What holds, and what does not

- Line breaks are Python's own: `splitlines` ends lines at more characters than newline. Some promises then fail, and
  their exact conditions are proved. `merge_env_text` is idempotent on every text exactly when the rendered block reads back
  without a line the merge would keep (`MergeIdempotentExactly`), which is decided value by value
  (`MergeIdempotentByValue`): it fails for a safe value closed by one newline and for some values with a raw carriage
  return, such as `a`, carriage return, `b` (`CarriageReturnBreaksIdempotence`). `redact_dokploy_env_payload` drops the break of a hidden line that ends in,
  say, a vertical tab; redacting twice equals redacting once exactly when such a line is last or followed by an empty
  line (`RedactIdempotentExactly`). The values of a list of specs are hidden completely, merged over whatever text,
  exactly when each of them encodes to one line (`ValuesStayHiddenExactly`), which is also exactly when they read back
  (`MergedPayloadReadsBack`) and when placeholders resolve (`PlaceholdersResolveExactly`).
- A leaked value's service is looked up by newlines counted, among lines of `splitlines`. It is the service the value stands
  in for files with ordinary line ends, and `ServiceNamedExactly` says when it is otherwise.
- A stored compose hash means that the render is live as long as all runs apply the same render. A run for another render
  that is cut leaves the old hash in place. `OtherRenderEndsLiveness` says for each stage of such a run whether the first
  render is still live; the stored hash stays honest at all of them exactly when the other render is refused, or its file
  and payload are those deployed (`OtherRenderHonestExactly`).
- The compose backend keeps at most one project and app provided that the stack's project has an environment. When the
  first project of the stack has none, and only then, `_ensure_compose_applied` asks for a new project although there is
  one (`AsksAlthoughThere`); the contract of `EnsureComposeApplied` covers that case, in which the server ends with one
  more project of the name.
- A deploy whose hash could not be persisted leaves the backend sound but may be repeated: successful deploys are bounded
  by objects and failed persists together (`Run`).
- A resource id is lost for compose ids with a colon (`ResourceIdRoundTrip`), and then a name finds what its id does not
  (`NameAndIdAgree`).
- Contracts with shared mount names can settle or not. One pass settles normalised contracts from every mount list exactly
  when they are `Compatible` (`NormalizedPassSettlesExactly`): no contract deletes every place where another could
  mount, no two want one mount in different modes, and for OpenClaw, which has two names, one of them stays usable in the
  order of the pass.
- Contracts with a shared schedule identity settle exactly when they want the same fields (`PassSchedulesExactly`), which
  for contracts of one identity means the same displayed name. Even then each of them adds a schedule when none is listed
  (`PassAddsOneExactly`).
- The reporter masks once more, with the same password, what the line buffer has masked already. It prints every logged line as it was logged exactly
  when replacing the password twice is replacing it once (`PasswordPrintsAsLoggedExactly`): `red` is replaced again within
  the `<redacted>` put in for it. Hiding once more never shows in print, because the same mask follows; before that mask it
  changes a line exactly for passwords that occur in `<REDACTED>` (`PasswordHidesNothingMoreExactly`).
- In `_normalize_nvidia_ref` the rewrite of one model name is unreachable (`NvidiaRewriteIsDead`), and in a version spec an
  operator followed by a space makes the whole spec match nothing (`LoneOperatorMatchesNothing`).
- User names cut at 63 characters can meet although their packs differ; `UserNamesMeet` gives the exact condition, and
  `LiteLLMMeets` says when a pack meets LiteLLM's own database or user.

## Model

| member | source | states |
|---|---|---|
| `Text.BreaksAre` | src/dokploy_wizard/verification.py:147-147 | the characters that end a line, by code point |
| `Text.SpacesAre` | src/dokploy_wizard/dokploy/env_spec.py:345-350 | the characters that count as white space, by code point |
| `Text.StripIs` | src/dokploy_wizard/core/planner.py:269-274 | stripping gives back what stands between white space, provided it begins and ends in none |
| `Text.BeforeIs` | src/dokploy_wizard/artifact_secret_scan.py:280-284 | the order of strings: a beginning comes first, else the first characters to differ decide |
| `EnvFormat.ThreeReplacementsAreOneEscape` | src/dokploy_wizard/dokploy/env_spec.py:364-366 | replacing backslash, then quote, then newline over the whole string equals one character-by-character escape |
| `EnvFormat.DecodeEncode` | src/dokploy_wizard/dokploy/env_spec.py:360-366 | an independent decoder recovers every value from its encoding, quoted or not, with no condition on its characters |
| `EnvFormat.EncodingIsOneLineExactly` | src/dokploy_wizard/dokploy/env_spec.py:360-366 | the encoded value holds no line break exactly when the value is admissible: no raw break other than an escaped newline, and not a safe run closed by one newline |
| `EnvFormat.RenderWizardEnvBlock` | src/dokploy_wizard/dokploy/env_spec.py:311-321 | the loop yields the marker and assignment lines of every spec, in order, each ended by a newline, and nothing for no specs |
| `EnvFormat.MarkerLineIs` | src/dokploy_wizard/dokploy/env_spec.py:315-316 | the marker line, field by field in the order written: marker, owner, key, fingerprint |
| `EnvFormat.MarkerLineFields` | src/dokploy_wizard/dokploy/env_spec.py:345-350 | reading `marker=`, `owner=`, `key=` and `fingerprint=` back from a rendered marker line gives exactly the spec's fields |
| `EnvFormat.PlainExactly` | src/dokploy_wizard/dokploy/env_spec.py:360-366 | a value is written as it is exactly when it consists of certain characters, by code point, perhaps with one newline behind; otherwise it is written between quotes |
| `EnvFormat.AssignmentLineParses` | src/dokploy_wizard/dokploy/env_spec.py:353-357 | a rendered assignment line is recognised as one, splits back into the spec's name and encoded value, and is no marker |
| `EnvFormat.LooksLikeEnvAssignmentIs` | src/dokploy_wizard/dokploy/env_spec.py:353-357 | an assignment is, exactly, a line whose part before its first equality sign is a name |
| `EnvFormat.EncodingEndsSolid` | src/dokploy_wizard/dokploy/env_spec.py:360-366 | the encoding of a one-line value is not empty and does not end in white space, so trimming the text cannot damage it |
| `EnvMerge.PreserveUnrelatedEnvLines` | src/dokploy_wizard/dokploy/env_spec.py:324-342 | the scan with its skip flag keeps exactly the lines that are neither an owned marker nor an assignment right below one, and trims trailing blanks |
| `EnvMerge.MergeEnvText` | src/dokploy_wizard/dokploy/env_spec.py:169-178 | the result is the kept foreign lines followed by the rendered block |
| `EnvMerge.MergeIdempotentExactly` | src/dokploy_wizard/dokploy/env_spec.py:169-178 | merging the same specs twice equals merging once on every text if and only if the rendered block, read back, leaves no line the merge would keep |
| `EnvMerge.MergeIdempotentIff` | src/dokploy_wizard/dokploy/env_spec.py:169-178 | for values whose only raw breaks are newlines, idempotence on every text holds if and only if no value is a safe run followed by one newline |
| `EnvMerge.CarriageReturnBreaksIdempotence` | src/dokploy_wizard/dokploy/env_spec.py:360-366 | a concrete value with a raw carriage return for which a second merge changes the text |
| `EnvMerge.BlockWithRawBreak` | src/dokploy_wizard/dokploy/env_spec.py:311-321 | a block whose one value has a raw break reads back as three lines, the last of them the value's tail |
| `EnvMerge.SecondMergeWinsExactly` | src/dokploy_wizard/dokploy/env_spec.py:169-178 | two merges whose specs have the same owner pairs equal the second alone on every text if and only if the first block, read back, leaves no line the merge would keep |
| `EnvMerge.SameOwnersSecondMergeWins` | src/dokploy_wizard/dokploy/env_spec.py:169-178 | which is so for all one-line values: two merges for the same owner pairs equal the second alone |
| `EnvMerge.ForeignLinesSurvive` | src/dokploy_wizard/dokploy/env_spec.py:324-342 | for all specs: foreign lines stay in order with their content, up to trailing blanks, and the block follows them |
| `EnvMerge.LaterMergeKeepsTheBlockExactly` | src/dokploy_wizard/dokploy/env_spec.py:169-178 | a later merge keeps the earlier block on every text, line for line and right above its own, if and only if it keeps that block, read back, on its own |
| `EnvMerge.DisjointOwnersKeepTheBlock` | src/dokploy_wizard/dokploy/env_spec.py:169-178 | which is so for all one-line values and a later merge for other owners |
| `MergeByValue.SpecAbove` | src/dokploy_wizard/dokploy/env_spec.py:311-366 | a block reads back spec by spec: the marker line, the assignment up to the value's first raw break, and the lines it spills |
| `MergeByValue.MergeIdempotentByValue` | src/dokploy_wizard/dokploy/env_spec.py:169-178 | merging the same specs twice equals merging once on every text if and only if what each value spills is nothing, or an owned marker followed only by owned markers and assignments right below one |
| `MergeByValue.SecondMergeWinsByValue` | src/dokploy_wizard/dokploy/env_spec.py:169-178 | under that condition on the first list, and only then, two merges for the same owner pairs equal the second alone on every text |
| `MergeByValue.LaterMergeKeepsByValue` | src/dokploy_wizard/dokploy/env_spec.py:169-178 | a later merge keeps the earlier block on every text if and only if it has none of its owners, no value spills one of its markers, and the last value is no safe run closed by a newline |
| `EnvReader.BlockReadsBackExactly` | src/dokploy_wizard/dokploy/env_spec.py:311-366 | the list of names, owners and values read back from a rendered block is the list written if and only if every value encodes to one line |
| `EnvReader.MergedPayloadReadsBack` | src/dokploy_wizard/dokploy/env_spec.py:169-178 | the same over any existing text, after the owned entries of its kept foreign lines |
| `EnvReader.MergedValue` | src/dokploy_wizard/dokploy/env_spec.py:169-178 | last assignment wins, for all specs: a name reads as in the block alone, or else as the kept foreign lines say; with one-line values that is its last spec's value, and a value with another raw break never reads back |
| `ComposeValidation.ServiceEntries` | src/dokploy_wizard/dokploy/env_spec.py:273-301 | the loop over the compose lines finds exactly the service headers, each with its indent and line |
| `ComposeValidation.ServiceRanges` | src/dokploy_wizard/dokploy/env_spec.py:273-301 | the ranges are ordered and disjoint and cover everything from the first header to the end of the file |
| `ComposeValidation.ServiceForLine` | src/dokploy_wizard/dokploy/env_spec.py:304-308 | range lookup equals the simple rule: the last service header at or above the line, for every text |
| `ComposeValidation.OccurrencesInLines` | src/dokploy_wizard/dokploy/env_spec.py:258-270 | every required placeholder of every line is found once, left to right, with its line's service |
| `ComposeValidation.RequiredPlaceholderOccurrences` | src/dokploy_wizard/dokploy/env_spec.py:258-270 | the same for a whole compose text |
| `ComposeGrammar.PrefixExactly` | src/dokploy_wizard/dokploy/env_spec.py:13-15 | a match at the start of a text is, exactly, a dollar and brace, an identifier, `:?` or `?`, anything up to the first closing brace, and that brace |
| `ComposeGrammar.PlaceholdersExactly` | src/dokploy_wizard/dokploy/env_spec.py:258-270 | the names found in a line are those of its leftmost, non-overlapping placeholders, none passed over; every line has such a list and only one |
| `ComposeGrammar.ServiceLineExactly` | src/dokploy_wizard/dokploy/env_spec.py:16 | a service line is, exactly, white space, a name of certain characters, a colon, white space, and nothing else but a comment |
| `ComposeGrammar.HeaderExactly` | src/dokploy_wizard/dokploy/env_spec.py:273-301 | a line starts a service exactly when it is such a line, two columns into a section that a `services:` line above opened and no line in between closed |
| `ComposeGrammar.IdentifierIs` | src/dokploy_wizard/dokploy/env_spec.py:13-15 | names by code point: letters, digits and underscores, no digit first |
| `ComposeGrammar.IndentIs` | src/dokploy_wizard/dokploy/env_spec.py:273-301 | the indent of a line is the white space before its first other character |
| `ComposeValidation.IndexSpecsByName` | src/dokploy_wizard/dokploy/env_spec.py:249-255 | each name is indexed with its specs, in order, and only names of specs are keys |
| `ComposeValidation.RejectRawSensitiveValues` | src/dokploy_wizard/dokploy/env_spec.py:219-233 | fails exactly when a sensitive value occurs in the compose text, naming a spec it happens for |
| `ComposeValidation.CheckPlaceholders` | src/dokploy_wizard/dokploy/env_spec.py:119-140 | fails exactly when some placeholder has no spec, several specs, or stands outside its spec's target services |
| `ComposeValidation.CheckReferences` | src/dokploy_wizard/dokploy/env_spec.py:141-148 | fails exactly when a required spec's placeholder does not occur |
| `ComposeValidation.ValidateRenderedCompose` | src/dokploy_wizard/dokploy/env_spec.py:115-148 | succeeds if and only if the three conditions hold together, and a failure names one that does not |
| `ComposeValidation.BuildEnvPayload` | src/dokploy_wizard/dokploy/env_spec.py:150-154 | the payload is the merge over the existing text, given exactly for compose texts that pass validation |
| `ComposeValidation.PlaceholdersResolve` | src/dokploy_wizard/dokploy/env_spec.py:150-154 | read last-assignment-wins from the payload over any existing text, every required placeholder gets its unique spec's value, in a service that spec allows |
| `ComposeValidation.PlaceholdersResolveExactly` | src/dokploy_wizard/dokploy/env_spec.py:115-154 | when every spec of an accepted compose is referenced, as all required ones are, its placeholders resolve over every existing text if and only if every value encodes to one line |
| `LeakService.LineHolds` | src/dokploy_wizard/dokploy/env_spec.py:219-233 | the line an offset is said to fall in holds it |
| `LeakService.LineCountedExactly` | src/dokploy_wizard/dokploy/env_spec.py:226-227 | the newlines before an offset number its line if and only if every line above it ends in one, and never count too many |
| `LeakService.ServiceNamedExactly` | src/dokploy_wizard/dokploy/env_spec.py:219-233 | the service named for a leaked value is that of the value's own line if and only if no service starts between the line counted and that line, or the last to start there has the same name |
| `LeakService.ServiceNamedRight` | src/dokploy_wizard/dokploy/env_spec.py:219-233 | so it is in files whose lines all end in newlines, alone or after a carriage return |
| `ComposeValidation.RequiredNamesAreDistinct` | src/dokploy_wizard/dokploy/env_spec.py:125-134 | in an accepted compose the name of a required spec belongs to no other spec |
| `Redaction.RedactDokployEnvPayload` | src/dokploy_wizard/verification.py:143-158 | the loop with its flag hides exactly the assignments right below a marker and leaves every other line as it is |
| `Redaction.RedactKeepsLineCountExactly` | src/dokploy_wizard/verification.py:143-158 | the number of lines is kept if and only if no hidden line but the last ends in a break other than newline or carriage return; it never grows |
| `RedactionTwice.RedactIdempotentExactly` | src/dokploy_wizard/verification.py:143-158 | redacting twice equals redacting once if and only if every hidden line that loses its break is last or followed by an empty line |
| `RedactionTwice.PlainTextsRedactOnce` | src/dokploy_wizard/verification.py:143-158 | in particular on every text whose lines end in newline, carriage return or both |
| `RedactionTwice.VerticalTabBreaksIdempotence` | src/dokploy_wizard/verification.py:147-155 | a concrete payload with a vertical tab in a value for which the second redaction differs from the first |
| `Redaction.RedactionHidesValues` | src/dokploy_wizard/verification.py:143-158 | over any existing text, two merged payloads whose specs agree on everything but their one-line values redact to the same text |
| `Redaction.OneValueStaysHiddenExactly` | src/dokploy_wizard/verification.py:143-158 | redaction makes one value indistinguishable from the empty one if and only if it encodes to one line; any other leaves a longer text |
| `RedactionOfLists.RedactJoins` | src/dokploy_wizard/verification.py:143-158 | redaction of a text cut above a comment line is redaction of the parts |
| `RedactionOfLists.ValuesStayHiddenExactly` | src/dokploy_wizard/verification.py:143-158 | merged over any text, a list of specs redacts as with empty values if and only if every value encodes to one line |
| `StreamRedaction.SplitAtNewline` | src/dokploy_wizard/remote_transport.py:441-444 | cutting a text at its first newline splits it into its first complete line and the rest |
| `StreamRedaction.LineComesOut` | src/dokploy_wizard/remote_transport.py:438-444 | whatever carriage returns stand before the newline that ends it, a line comes out without them and with everything else, followed by the lines of the rest |
| `StreamRedaction.LastLineComesOut` | src/dokploy_wizard/remote_transport.py:446-449 | so does a last line that no newline ends |
| `StreamRedaction.StreamAssignmentIs` | src/dokploy_wizard/remote_transport.py:468-470 | an assignment has a key of letters, digits and underscores, not only of underscores, up to its first equality sign |
| `StreamRedaction.HiddenIs` | src/dokploy_wizard/remote_transport.py:453-455 | a hidden line is the key, the sign and `<REDACTED>` |
| `StreamRedaction.StreamLineBuffer.Emit` | src/dokploy_wizard/remote_transport.py:451-465 | emits one line, masked if the flag is set and it is an assignment, and sets the flag exactly for marker lines |
| `StreamRedaction.StreamLineBuffer.EmitCompleteLines` | src/dokploy_wizard/remote_transport.py:441-444 | emits every complete line of the pending text and keeps exactly the partial rest |
| `StreamRedaction.StreamLineBuffer.Feed` | src/dokploy_wizard/remote_transport.py:438-444 | lines emitted so far together with the pending text account for all text fed |
| `StreamRedaction.StreamLineBuffer.Flush` | src/dokploy_wizard/remote_transport.py:446-449 | emits the rest, after which the lines shown are exactly the lines of all text fed |
| `StreamRedaction.DrainSide` | src/dokploy_wizard/remote_transport.py:406-418 | one side's chunks are fed in order until the queue is empty or an empty chunk comes; the rest is still queued |
| `StreamRedaction.DrainChannel` | src/dokploy_wizard/remote_transport.py:397-419 | both sides are drained, neither disturbs the other's lines, and what is reported as drained is whether anything was read |
| `StreamRedaction.PumpRounds` | src/dokploy_wizard/remote_transport.py:360-375 | the polling loop keeps, per stream, fed text and shown lines in step; heartbeats come at most in rounds that bring nothing, and not in the last |
| `StreamRedaction.StreamCommandOutput` | src/dokploy_wizard/remote_transport.py:337-387 | for every cutting into chunks and every interleaving, the log shows per stream exactly the masked lines of the whole text |
| `StreamRedaction.RemoteProgressReporter.RedactRemoteOutputLine` | src/dokploy_wizard/remote.py:677-691 | masks exactly the assignment right below a marker of the same subcommand and stream, and touches no other stream's flag |
| `StreamRedaction.RemoteProgressReporter.RemoteOutput` | src/dokploy_wizard/remote.py:660-666 | prints, of everything heard so far, exactly the reported lines masked once more, or nothing when not verbose |
| `ReporterLog.PrintsAsLoggedExactly` | src/dokploy_wizard/remote.py:660-691 | for every mask that makes no markers and no assignments of its own: the printed lines of every stream are the logged ones, in every log and whatever other streams stand in between, if and only if masking twice is masking once on lines |
| `ReporterLog.ReporterPrintsLog` | src/dokploy_wizard/remote.py:649-666 | so a reporter that heard a log has printed it as logged when masking twice is masking once |
| `ReporterLog.HidesNothingMoreExactly` | src/dokploy_wizard/remote.py:677-691 | before its own mask the reporter changes no logged line if and only if the mask never changes a hidden assignment that stays one, below a marker that stays one |
| `PasswordMask.MaskKeepsStarts` | src/dokploy_wizard/remote.py:644-647 | replacing a password, or none, is such a mask |
| `PasswordMask.PasswordHidesNothingMoreExactly` | src/dokploy_wizard/remote.py:677-691 | before its own mask the reporter changes no logged line if and only if no password is set or the password does not occur in `<REDACTED>` |
| `PasswordMask.SwapsOnceExactly` | src/dokploy_wizard/remote_transport.py:21-24 | replacing a password twice is replacing it once, on lines, if and only if it holds a newline, is `<redacted>` itself, or does not reappear: it can neither begin within a `<redacted>` put in, nor reach into one from before |
| `PasswordMask.PasswordPrintsAsLoggedExactly` | src/dokploy_wizard/remote.py:644-666 | the printed lines of every stream are the logged ones, in every log, if and only if no password is set or replacing it twice is replacing it once |
| `PasswordMask.PlainPasswordStays` | src/dokploy_wizard/remote_transport.py:21-24 | no password without `<` whose first character is not one of those of `<redacted>` reappears |
| `PasswordMask.ReappearsExamples` | src/dokploy_wizard/remote_transport.py:21-24 | `red` reappears; `<<` and `RED` do not, though the second occurs in `<REDACTED>` |
| `StreamRedaction.StreamEqualsBatchExactly` | src/dokploy_wizard/remote_transport.py:438-465 | the streamed lines are the batch redactor's lines if and only if both agree, below every marker, on what an assignment is |
| `StreamRedaction.ProperKeysAgree` | src/dokploy_wizard/remote_transport.py:468-470 | they agree on every key that is an identifier with a letter or a digit |
| `SecretScan.GreedyStaysAhead` | src/dokploy_wizard/artifact_secret_scan.py:233-253 | the k-th greedy occurrence ends no later than the k-th of any other choice of pairwise disjoint occurrences |
| `SecretScan.GreedyIsMaximum` | src/dokploy_wizard/artifact_secret_scan.py:233-253 | no choice of pairwise disjoint occurrences is larger than the greedy one |
| `SecretScan.GreedyIsUnique` | src/dokploy_wizard/artifact_secret_scan.py:233-253 | text and value determine the greedy positions |
| `SecretScan.NothingFoundExactly` | src/dokploy_wizard/artifact_secret_scan.py:233-253 | nothing is found exactly when the value does not occur |
| `SecretScan.LineNumberIsRight` | src/dokploy_wizard/artifact_secret_scan.py:245-250 | in a text read as lines, the line numbered one more than the newlines before an offset is the one the offset falls in |
| `SecretScan.LeaksAreInTheirLines` | src/dokploy_wizard/artifact_secret_scan.py:237-252 | every text reads as lines, and every reported occurrence falls in the line reported for it |
| `SecretScan.LeaksOf` | src/dokploy_wizard/artifact_secret_scan.py:237-252 | the search loop stops, and reports the greedy occurrences of one candidate with their lines, none exactly when it does not occur |
| `SecretScan.FindLeaks` | src/dokploy_wizard/artifact_secret_scan.py:233-253 | the findings of every candidate in order; none exactly when no candidate occurs |
| `SecretScan.ScanArtifacts` | src/dokploy_wizard/artifact_secret_scan.py:151-175 | counts the files read and passes exactly when no candidate occurs in any of them |
| `SecretScan.FirstByValue` | src/dokploy_wizard/artifact_secret_scan.py:280-284 | keeps the first candidate of every value, in the order of their first positions |
| `SecretScan.DedupeCandidates` | src/dokploy_wizard/artifact_secret_scan.py:280-284 | the result has the same values as the input, each once, sorted by name and, for one name, in the order of first positions |
| `SecretScan.VerdictIgnoresDuplicates` | src/dokploy_wizard/artifact_secret_scan.py:280-284 | deduplicating candidates never changes whether a whole scan passes |
| `ComposeApply.ApplyRenderedToExisting` | src/dokploy_wizard/dokploy/compose_noop.py:91-108 | env first when there is one, then the file: wherever it stops the server is at one of these three stages, and success means the last |
| `ComposeApply.ApplyAndDeploy` | src/dokploy_wizard/dokploy/compose_noop.py:66-78 | success means the render is live and one more deploy succeeded; a failure deploys nothing successfully and un-lives nothing |
| `ComposeApply.Checkpoint.PersistHash` | src/dokploy_wizard/dokploy/compose_noop.py:143-160 | only this service's hash changes, every other field and hash stays; without a checkpoint it fails |
| `ComposeApply.ApplyNoopGuard` | src/dokploy_wizard/dokploy/compose_noop.py:55-88 | skips exactly when the stored hash is the render's and verification passes, and then makes no client call and leaves the checkpoint; wherever else it stops the server is at a stage of the run, the checkpoint as before or with the run's own hash, and a stored hash of the render means the render is live |
| `ComposeApply.OtherRenderEndsLiveness` | src/dokploy_wizard/dokploy/compose_noop.py:91-108 | stage by stage, when a run for another render leaves this one live: after the env, after the file, and after a deploy, each in terms of the two files and payloads and the deploys so far |
| `ComposeApply.OtherRenderHonestExactly` | src/dokploy_wizard/dokploy/compose_noop.py:55-88 | a stored hash of this render is honest wherever a run for another one stops if and only if it is not stored, the other render is refused, or file and payload agree and were deployed |
| `ComposeApply.GuardStaysHonest` | src/dokploy_wizard/dokploy/compose_noop.py:55-88 | so the guard run for such another render keeps it honest, also after storing its own hash |
| `ComposeApply.ApplyNoopGuardBeside` | src/dokploy_wizard/dokploy/compose_noop.py:55-88 | the guard run for another render keeps both hashes honest wherever it stops, provided that the earlier one is not stored, the new render is refused, or it is harmless |
| `NextcloudBackend.KindFromNameExactly` | src/dokploy_wizard/dokploy/nextcloud.py:1113-1126 | the four resource names of a stack, and no others, tell kind and role |
| `NextcloudBackend.ResourceIdIs` | src/dokploy_wizard/dokploy/nextcloud.py:1129-1135 | the four forms of a resource id, spelled out |
| `NextcloudBackend.ResourceIdRoundTrip` | src/dokploy_wizard/dokploy/nextcloud.py:1129-1162 | a resource id reads back as what it was made of exactly when the compose id has no colon, and never as the other role |
| `NextcloudBackend.Backend.FindComposeLocator` | src/dokploy_wizard/dokploy/nextcloud.py:571-593 | the answer, cached or not, is a fresh lookup on the server |
| `NextcloudBackend.Backend.ApplyAt` | src/dokploy_wizard/dokploy/nextcloud.py:613-655 | updating the existing app keeps at most one project and app, the cached locator fresh and the stored hash honest; a skip touches nothing |
| `NextcloudBackend.Backend.CreateIn` | src/dokploy_wizard/dokploy/nextcloud.py:712-745 | creating the app where none is keeps at most one; the hash is stored only after a successful deploy |
| `NextcloudBackend.Backend.EnsureComposeApplied` | src/dokploy_wizard/dokploy/nextcloud.py:595-787 | whatever fails, at most one project and app, an honest checkpoint and at most one successful deploy that is not stored; success means the found app is live; nothing is changed when already created in process, or stored and verified; for a first project without environments the branch taken asks for a project, and the server ends with one more of the name when its app is asked for |
| `NextcloudBackend.Backend.Get` | src/dokploy_wizard/dokploy/nextcloud.py:224-235 | an id finds a resource exactly when it names the stack's one compose app |
| `NextcloudBackend.Backend.FindByName` | src/dokploy_wizard/dokploy/nextcloud.py:237-249 | a name of the stack finds the app's id, and nothing once this object has created the app |
| `NextcloudBackend.Backend.Create` | src/dokploy_wizard/dokploy/nextcloud.py:251-274 | unknown names are refused exactly when the name is none of the stack's, inputs exactly when a service's do not match, both before any call; any other error has its reason in a failed call, a failed write or a refused render; else the id returned is the one the settled app is found under |
| `NextcloudBackend.Backend.NameAndIdAgree` | src/dokploy_wizard/dokploy/nextcloud.py:224-249 | what a name finds, its id finds, under the same name, exactly when the compose id has no colon |
| `NextcloudBackend.NewProjectKeeps` | src/dokploy_wizard/dokploy/nextcloud.py:747-751 | a new project next to none of its name keeps at most one, still without an app |
| `NextcloudBackend.NewComposeKeeps` | src/dokploy_wizard/dokploy/nextcloud.py:712-717 | a new app next to none keeps at most one, and the lookup finds it |
| `NextcloudBackend.Choose` | src/dokploy_wizard/dokploy/nextcloud.py:595-662 | the search through any project listing picks update, new app or new project as the specified branch says |
| `NextcloudBackend.BranchMeans` | src/dokploy_wizard/dokploy/nextcloud.py:595-662 | with at most one project and app, the branch says where the app is, where to make it, or that the stack has no project |
| `NextcloudBackend.AsksAlthoughThere` | src/dokploy_wizard/dokploy/nextcloud.py:656-662 | a new project is asked for although the stack has one if and only if the first of its name has no environment |
| `NextcloudBackend.Run` | src/dokploy_wizard/dokploy/nextcloud.py:571-787 | for any sequence of calls, restarts and failed or cut calls, objects used again after a failed persist included: at most one project and app, an honest stored hash, an app once settled stays settled, and no more successful deploys than backend objects and failed persists together |
| `ExternalStorage.NormalizePathMoves` | src/dokploy_wizard/dokploy/nextcloud.py:896-901 | a path under the contract's root moves with it, keeping what follows; normalising with the target as root changes nothing |
| `ExternalStorage.NormalizeIdempotent` | src/dokploy_wizard/dokploy/nextcloud.py:904-933 | normalising a contract twice is normalising it once, and all its paths stay under its root |
| `ExternalStorage.NormalizeIs` | src/dokploy_wizard/dokploy/nextcloud.py:904-933 | where a contract ends up, in full: root, name, every path moved with the old root, all else as before |
| `ExternalStorage.TurnLeaves` | src/dokploy_wizard/dokploy/nextcloud.py:2164-2248 | what one turn leaves: every mount stays in its place except identified ones of the contract's names, not at its path, that are at or below its root or `/mnt/` and its advisor; one mount is new exactly when none of its names had one at its path |
| `ExternalStorage.TouchableIs` | src/dokploy_wizard/dokploy/nextcloud.py:2151-2180 | the mounts a contract may touch, on strings |
| `ExternalStorage.InUseIs` | src/dokploy_wizard/dokploy/nextcloud.py:2183-2196 | the mount in use: the first of the contract's name at its path, else for OpenClaw the first of the old name |
| `ExternalStorage.OldPlaceIsStale` | src/dokploy_wizard/dokploy/nextcloud.py:2133-2180 | a mount made before the contract's volume moved counts as stale and wizard-owned, so it is replaced |
| `ExternalStorage.FindMountId` | src/dokploy_wizard/dokploy/nextcloud.py:2061-2073 | the first identified mount of that name at that path, none exactly when there is none |
| `ExternalStorage.ResolveExisting` | src/dokploy_wizard/dokploy/nextcloud.py:2183-2196 | the mount in use under the contract's name or, failing that, a legacy one |
| `ExternalStorage.DeleteStale` | src/dokploy_wizard/dokploy/nextcloud.py:2164-2180 | over a snapshot, deletes exactly the stale mounts; wherever it stops, every mount that is not the contract's by name and directory is untouched, in order |
| `ExternalStorage.PlaceMount` | src/dokploy_wizard/dokploy/nextcloud.py:2215-2239 | creates a mount exactly when none is in use, and always finds the one it created |
| `ExternalStorage.EnsureAdvisorStorage` | src/dokploy_wizard/dokploy/nextcloud.py:2199-2248 | one contract's turn computes the settled mounts; wherever it stops, mounts that are not the contract's by name and directory are untouched; a settled contract costs no create or delete |
| `ExternalStorage.RefreshAll` | src/dokploy_wizard/dokploy/nextcloud.py:448-454 | the pass over all contracts, successful exactly when no command fails; wherever it stops, mounts that are no contract's by name and directory are untouched; settled contracts cost no create or delete |
| `ExternalStorage.EnsuredSettles` | src/dokploy_wizard/dokploy/nextcloud.py:2199-2248 | after its turn a contract has no stale mount and a mount at its path, open to the user with its mode |
| `ExternalStorage.EnsuredKeepsSettled` | src/dokploy_wizard/dokploy/nextcloud.py:2199-2248 | the turn of a contract with other names does not unsettle this one |
| `MountConflicts.TurnSpots` | src/dokploy_wizard/dokploy/nextcloud.py:2199-2248 | what one turn does to any name at any path: gone where the contract deletes, open to the user with its mode where it mounts, otherwise as before |
| `MountConflicts.SettledBySpots` | src/dokploy_wizard/dokploy/nextcloud.py:2164-2248 | a contract is settled exactly when nothing stands where it deletes and its mount is open to the user with its mode |
| `MountConflicts.PassSettlesExactly` | src/dokploy_wizard/dokploy/nextcloud.py:448-454 | one pass settles all contracts from every mount list if and only if they are compatible, a condition on their names, paths, roots, modes and order |
| `MountConflicts.NormalizedPassSettlesExactly` | src/dokploy_wizard/dokploy/nextcloud.py:904-933 | the same for any contracts once normalised, which are the only ones the backend keeps |
| `MountConflicts.OnePassConverges` | src/dokploy_wizard/dokploy/nextcloud.py:448-454 | one pass over compatible contracts, or any of disjoint names, settles all, leaves every mount that is no contract's by name and directory as it was, in order, and a second pass changes nothing |
| `MountConflicts.DisjointIsCompatible` | src/dokploy_wizard/dokploy/nextcloud.py:448-454 | contracts of disjoint names are compatible |
| `ExternalStorage.SettledHasMount` | src/dokploy_wizard/dokploy/nextcloud.py:2183-2196 | settled means a mount of one of the contract's names at its path, for the user, with its mode |
| `ExternalStorage.SharedNamesNeverSettle` | src/dokploy_wizard/dokploy/nextcloud.py:2164-2180 | a contract all of whose names another one has, which owns its path but mounts elsewhere, is never settled together with it |
| `RescanSchedules.NameIsInjective` | src/dokploy_wizard/dokploy/nextcloud.py:2275-2281 | schedule names of a stack tell identities apart |
| `RescanSchedules.IndexByName` | src/dokploy_wizard/dokploy/nextcloud.py:465-467 | the dictionary holds the last schedule of every name |
| `RescanSchedules.EnsureRescanSchedules` | src/dokploy_wizard/dokploy/nextcloud.py:456-506 | the loop computes the pass; wherever it stops, other names are untouched, and so is every schedule but the last listed under each name; no call when every schedule is as desired |
| `RescanSchedules.TurnDoes` | src/dokploy_wizard/dokploy/nextcloud.py:475-506 | one target's turn: its name has the desired fields unless it was listed with them, one schedule more exactly when none was listed, and every other name is left alone |
| `RescanSchedules.PassCounts` | src/dokploy_wizard/dokploy/nextcloud.py:465-486 | along every pass each target whose name was not listed adds a schedule of its own, and names outside are untouched |
| `RescanSchedules.PassSpares` | src/dokploy_wizard/dokploy/nextcloud.py:475-506 | a pass leaves every schedule but the last one listed under each target's name as it is, in order, others of the same names included |
| `RescanSchedules.PassSchedulesExactly` | src/dokploy_wizard/dokploy/nextcloud.py:456-506 | every pass leaves every target scheduled with its fields if and only if targets of one name want the same fields |
| `RescanSchedules.PassAddsOneExactly` | src/dokploy_wizard/dokploy/nextcloud.py:465-486 | every pass adds at most one schedule of a name if and only if the names are distinct; the one listing answers for all targets of a name |
| `RescanSchedules.IdentitiesNameTargets` | src/dokploy_wizard/dokploy/nextcloud.py:2275-2281 | the names are distinct exactly when the contracts' identities are |
| `RescanSchedules.IdentitiesAgreeOnFields` | src/dokploy_wizard/dokploy/nextcloud.py:475-486 | which fields agree is decided by the contracts: those of one identity show under one name |
| `RescanSchedules.OnePassConverges` | src/dokploy_wizard/dokploy/nextcloud.py:456-506 | for such contracts one pass gives each a schedule of the desired fields, leaves other names, and a second pass over the same mounts changes nothing |
| `RescanSchedules.PassSays` | src/dokploy_wizard/dokploy/nextcloud.py:475-506 | after such a pass the schedule named after stack and identity runs by the settings' cron and timezone and scans the files shown under the mount in use |
| `SharedCore.Resolve` | src/dokploy_wizard/core/reconciler.py:375-447 | reuse of an owned resource, reuse by name, creation, dry-run plan and each error, as the ledger and the backend decide; a reported resource exists under its name |
| `SharedCore.ResolveOptional` | src/dokploy_wizard/core/reconciler.py:347-372 | a kind's turn depends only on the start of the run, whatever other kinds have created meanwhile |
| `SharedCore.Reconcile` | src/dokploy_wizard/core/reconciler.py:128-253 | all five kinds as resolved from the state at the start; the outcome says whether something was created; a dry run and a run with nothing to create change nothing; each kind and name is created at most once |
| `SharedCore.PhaseNames` | src/dokploy_wizard/core/reconciler.py:128-253 | each service the plan names, and the network, is reported under that name, and none else is |
| `SharedCore.WantedAre` | src/dokploy_wizard/core/reconciler.py:212-219 | the allocations asked for: each pack's PostgreSQL allocation, in the plan's order and none left out, and LiteLLM's own behind them |
| `SharedCore.TypesAndScopesAre` | src/dokploy_wizard/core/reconciler.py:19-23 | the type and scope of every kind, spelled out |
| `SharedCore.FindOwnedExactly` | src/dokploy_wizard/core/reconciler.py:456-470 | the ledger is refused exactly when two entries fit a kind's type and scope, and has nothing exactly when none does |
| `SharedCore.BuildLedger` | src/dokploy_wizard/core/reconciler.py:256-321 | unshared entries in order, then one entry for each id |
| `SharedCore.LedgerHolds` | src/dokploy_wizard/core/reconciler.py:256-321 | the new ledger has exactly the run's entry of each shared type, at most one, and all other entries as before, in order |
| `SharedCore.LedgerFinds` | src/dokploy_wizard/core/reconciler.py:456-470 | looking a kind up in the new ledger finds exactly the id written, never a duplicate |
| `SharedCore.CompletedRunSettles` | src/dokploy_wizard/core/reconciler.py:128-321 | after a completed run and the ledger it leaves, every resource of the plan resolves as owned |
| `SharedCore.SettledRunReuses` | src/dokploy_wizard/core/reconciler.py:128-253 | a settled run reuses everything as owned and creates nothing |
| `SharedCore.SettledGrows` | src/dokploy_wizard/core/reconciler.py:128-253 | whatever is created later, a settled plan stays settled |
| `SharedCore.PresentIsQuiet` | src/dokploy_wizard/core/reconciler.py:375-447 | a plan whose resources exist under their names creates nothing, whatever the ledger says |
| `SharedCore.Runs` | src/dokploy_wizard/core/reconciler.py:128-321 | over any runs, each with its own plan, complete or interrupted, ledger kept or lost: every run completes or stops, by a failed call or over its ledger; every kind and name is created at most once, a plan once completed is present for good, runs for present plans create nothing, and the plan of the last ledger kept is settled |
| `SharedCore.TypesAreDistinct` | src/dokploy_wizard/core/reconciler.py:19-23 | the five ledger types are pairwise distinct |
| `PlanModels.NamedService.Reads` | src/dokploy_wizard/core/models.py:19-53 | reading gives this record if and only if it passes its checks and the object says it |
| `PlanModels.PostgresAllocation.Reads` | src/dokploy_wizard/core/models.py:143-180 | the same, with the forbidden user names in any letter case |
| `PlanModels.RedisAllocation.Reads` | src/dokploy_wizard/core/models.py:183-213 | the same, with the forbidden identities in any letter case |
| `PlanModels.MailRelay.Reads` | src/dokploy_wizard/core/models.py:55-96 | the same, with a positive port, booleans read as integers |
| `PlanModels.LiteLLM.Reads` | src/dokploy_wizard/core/models.py:99-140 | the same, with a nested allocation and a non-empty list of non-empty aliases |
| `PlanModels.PackAllocation.Reads` | src/dokploy_wizard/core/models.py:216-260 | the same, with its optional nested parts |
| `PlanModels.DecodeAllocations` | src/dokploy_wizard/core/models.py:340-344 | the loop decodes every entry in order or stops with the first one's error |
| `PlanModels.SharedCorePlan.Reads` | src/dokploy_wizard/core/models.py:318-370 | for every object: reading gives a plan if and only if the plan is valid at every depth and the object says it |
| `PlanModels.SharedCorePlan.RoundTrip` | src/dokploy_wizard/core/models.py:307-370 | written and read back, a plan is itself exactly when it is valid |
| `PlanModels.ReadPlansAreValid` | src/dokploy_wizard/core/models.py:298-370 | no object reads as a plan that is unsorted, lacks a required name or uses a forbidden identity |
| `PlanModels.ForbiddenExactly` | src/dokploy_wizard/core/models.py:9-10 | a name is forbidden exactly when it is one of the listed words, letter by letter in either case |
| `PlanModels.IntegersAre` | src/dokploy_wizard/core/models.py:75-90 | what reads as an integer: integers, and booleans as one and zero |
| `PlanModels.FieldErrorsAre` | src/dokploy_wizard/core/models.py:83-90 | what is said of a field that does not hold what it should |
| `PlanModels.SharedCorePlan.NothingRequired` | src/dokploy_wizard/core/models.py:304-305 | only a plan without allocations, mail relay and LiteLLM requires nothing |
| `Planner.ParseOpenrouterModels` | src/dokploy_wizard/core/planner.py:236-254 | the loop yields the routes of the non-blank items, in order |
| `Planner.ParseNvidiaModels` | src/dokploy_wizard/core/planner.py:201-219 | the same for the other list |
| `Planner.RoutesBearPrefix` | src/dokploy_wizard/core/planner.py:257-260 | every alias and target read from a list bears its provider's prefix |
| `Planner.NvidiaRewriteIsDead` | src/dokploy_wizard/core/planner.py:228-233 | the rewrite of one model name is never reached |
| `Planner.BuildAliasOrder` | src/dokploy_wizard/core/planner.py:114-130 | the collected aliases without repetition, or the fallback when there are none |
| `Planner.AliasOrderIsSound` | src/dokploy_wizard/core/planner.py:114-165 | for every environment the order is non-empty and duplicate-free, starts with the active AI default, contains exactly the collected aliases, and every alias has an active upstream unless the order is the fallback |
| `Planner.BuildSharedCorePlan` | src/dokploy_wizard/core/planner.py:34-111 | the loop over enabled packs with its flags builds the specified plan or stops with the first error |
| `PlanContents.OptionalValueExactly` | src/dokploy_wizard/core/planner.py:269-274 | a variable gives a value exactly when it is that value with white space around it, and not blank |
| `PlanContents.RouteIs` | src/dokploy_wizard/core/planner.py:201-219 | left of an item's first equality sign stands the alias, right of it the target, each with the provider's prefix; without a sign the item is both; nothing comes of a missing one |
| `PlanContents.SplitIs` | src/dokploy_wizard/core/planner.py:206-206 | a list is cut at every comma and nowhere else |
| `PlanContents.DefaultAliasIs` | src/dokploy_wizard/core/planner.py:133-144 | the default alias is the model under its provider's name, two of which have another one |
| `PlanContents.NoDefaultAlias` | src/dokploy_wizard/core/planner.py:133-144 | there is no default alias exactly when provider or model is not given |
| `PlanContents.ActiveExactly` | src/dokploy_wizard/core/planner.py:147-198 | when an alias has an active upstream, provider by provider and in terms of the variables set |
| `PlanContents.LocalAliasIs` | src/dokploy_wizard/core/planner.py:176-184 | the local alias is the default one when that is local, else the built-in one |
| `PlanContents.AliasOrderIs` | src/dokploy_wizard/core/planner.py:114-130 | the order holds the aliases of the four sources, each once where it comes first, or the built-in one when there are none |
| `PlanContents.NamesAre` | src/dokploy_wizard/core/planner.py:40-62 | database and user names character by character, the user cut at 63 |
| `PlanContents.ServicesOf` | src/dokploy_wizard/core/planner.py:84-111 | the names of a plan's services, and which are there |
| `PlanContents.MailRelayComesFrom` | src/dokploy_wizard/core/planner.py:291-308 | the mail relay is there exactly for two packs with a root domain; host name and sender each come from their own variable, else from the root domain |
| `Planner.PlanExactly` | src/dokploy_wizard/core/planner.py:34-111 | planning succeeds if and only if the allocating packs are named and sorted and a mail relay asked for has host and sender; the plan is then valid and allocates exactly what each pack needs |
| `Planner.RedisIsUsed` | src/dokploy_wizard/core/planner.py:46-72 | there is a Redis service exactly when some allocation uses it |
| `Planner.DatabaseNamesMeet` | src/dokploy_wizard/core/planner.py:54-62 | two packs share a database name exactly when they differ only in dashes and underscores |
| `Planner.UserNamesMeet` | src/dokploy_wizard/core/planner.py:60-62 | two packs share a user name exactly when what the 63-character cut leaves of their names is the same, so never when both fit and differ |
| `Planner.AllocationsMeet` | src/dokploy_wizard/core/planner.py:54-72 | the same for any two allocations of a plan |
| `Planner.LiteLLMMeets` | src/dokploy_wizard/core/planner.py:40-72 | a pack's database is LiteLLM's own exactly when it is named `litellm`, its user exactly when the cut leaves the same of both |
| `Planner.IdentitiesAreNeverForbidden` | src/dokploy_wizard/core/planner.py:38-72 | no stack and pack, however named, yield a user or identity that construction refuses |
| `AppStore.SpecIsInterval` | src/dokploy_wizard/dokploy/nextcloud.py:2388-2415 | the majors a spec accepts are exactly those of one interval, for every spec string; so acceptance is convex |
| `AppStore.MajorExactly` | src/dokploy_wizard/dokploy/nextcloud.py:2418-2422 | a version reads as the number before its first dot |
| `AppStore.DigitsJoin` | src/dokploy_wizard/dokploy/nextcloud.py:2418-2422 | digits count by decimal place |
| `AppStore.DigitsAre` | src/dokploy_wizard/dokploy/nextcloud.py:2418-2422 | digits by code point |
| `AppStore.OneDigit` | src/dokploy_wizard/dokploy/nextcloud.py:2418-2422 | a single digit is its own number |
| `AppStore.ClauseIs` | src/dokploy_wizard/dokploy/nextcloud.py:2388-2415 | each operator right before a version compares as it says |
| `AppStore.PlainClauseIs` | src/dokploy_wizard/dokploy/nextcloud.py:2398-2415 | a version alone matches its own major |
| `AppStore.OneClause` | src/dokploy_wizard/dokploy/nextcloud.py:2388-2392 | text without commas and white space is one clause, and no text is none |
| `AppStore.ClausesSplit` | src/dokploy_wizard/dokploy/nextcloud.py:2388-2392 | commas and white space part clauses |
| `AppStore.UsableExactly` | src/dokploy_wizard/dokploy/nextcloud.py:2337-2347 | a release gives its own download, exactly when it has one and its spec fits the major |
| `AppStore.LoneOperatorMatchesNothing` | src/dokploy_wizard/dokploy/nextcloud.py:2388-2403 | an operator set apart from its number makes the whole spec match nothing |
| `AppStore.ResolveDownload` | src/dokploy_wizard/dokploy/nextcloud.py:2328-2351 | the nested loops return the resolved download or the error |
| `AppStore.FirstUsableIs` | src/dokploy_wizard/dokploy/nextcloud.py:2337-2347 | the first release in catalogue order that has a download and fits the major; none exactly when none does |
| `AppStore.ResolutionIs` | src/dokploy_wizard/dokploy/nextcloud.py:2331-2348 | only the first app of the id counts, and one without a release list gives nothing |

## Left out

- HTTP, SSH, Docker and `occ` themselves: abstract servers whose calls may fail before or after their effect; waiting, retries, timing and progress texts are not part of this model.
- The other patterns of `redact_text`: an arbitrary function on each line. The password replacement before it is modelled in `PasswordMask`, and `ReporterLog` is about every mask that makes no markers and no assignments of its own.
- Heartbeats are logged unmasked; what is printed of them is the reporter's mask of them, and the statements about printed lines are about the two output streams.
- UTF-8 decoding across chunk borders: streaming starts from decoded text.
- The compose artifact hash and the candidate fingerprint: opaque values. The hash belongs to the one render a run applies; `dokploy_wizard.state` is not part of this model beyond the checkpoint's fields.
- Content of rendered compose texts and shell commands: arbitrary strings, except the scan command's path, which carries the mount name.
- Clients without an `env` argument, which make `_update_compose_env_if_supported` swallow a `TypeError`.
- The verification callback of the no-op guard is its verdict; that it may fill the locator cache is kept, that it may update schedules is the matter of `RescanSchedules`.
- Several ids or names for one JSON key (`mount_id`, `mountId`, `id`) in mount listings: a mount has one optional id, name and directory.
- `_ensure_external_storage_path`, `files_external:verify` and the scans after a turn: they change no mount.
- `str.lower` and `str.isdigit` outside ASCII: the forbidden identities have no other upper case; providers and version numbers are read as ASCII.
- `refresh_compose` and `reconcile_litellm_runtime` of the shared-core backend: hooks without a result.
- Which of several faults a plan record or object is refused for, and the wording: that it is refused is stated exactly, the first fault found is what the functions return.
- Comparing a service's host name, volume and bindings with the active plan (`_validate_service_inputs`): its verdict is a parameter of `Create`.
- `packs.catalog` and the model autosync switch: what a pack needs and the sidecar's service name are parameters of the planner.
- `reconcile_compose` of the env reconciler, and the backends of the other packs: variants of the modelled backend with fewer checks.
- Collecting secret candidates and walking the artifact tree: the scan starts from candidates and readable files.
- `cli.py`, preflight, drift and lifecycle: wiring around the modelled parts, or code that is not part of this model.
- EnvMerge.MergeIdempotentIff: asks for values whose only raw breaks are newlines; `MergeIdempotentByValue` is the full statement.
- EnvMerge.SameOwnersSecondMergeWins: asks for values that encode to one line; `SecondMergeWinsExactly` is the full statement.
- EnvMerge.DisjointOwnersKeepTheBlock: asks for values of the earlier block that encode to one line; `LaterMergeKeepsTheBlockExactly` is the full statement.
- Redaction.OneValueStaysHiddenExactly: one value over the empty text; `ValuesStayHiddenExactly` is the full statement.
- Redaction.RedactionHidesValues: asks for values that encode to one line; `ValuesStayHiddenExactly` shows that no other values stay hidden.
- ComposeValidation.PlaceholdersResolve: asks for values that encode to one line, so that the value read back is the value given; `PlaceholdersResolveExactly` shows that no other values do when all specs are referenced.
- RedactionTwice.PlainTextsRedactOnce: one direction; `RedactIdempotentExactly` is the full statement.
- StreamRedaction.StreamEqualsBatchExactly: asks for texts whose only breaks are newlines, because the stream cuts lines at newlines alone and the batch redactor at every break, so with other breaks the two do not speak of the same lines.
- NextcloudBackend.Backend.EnsureComposeApplied: asks for a server with at most one project and app, or a listing that leads to a new project; with several projects of the name whose first has an environment only the branch is stated, by `Choose`.
- ExternalStorage.EnsuredKeepsSettled: asks for disjoint names; for contracts that share names the full statement is about whole passes, in `MountConflicts`.
- ExternalStorage.SharedNamesNeverSettle: one way of never settling; `NormalizedPassSettlesExactly` is the full statement.
- AppStore.SpecIsInterval: digits outside ASCII read as no version, where the source takes some of them as digits.
