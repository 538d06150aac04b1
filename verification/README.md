# Verified models of the hand-written parsers, scanners and transactions

This project models, in Dafny, the parts of the repository whose correctness is
hard to see by reading one function, and proves what they compute. Every `.dfy`
file lies in this directory; `dafny verify dfyconfig.toml` checks all of them.

- **CloudEvents** (`JsonText`, `EventScanSpec`, `EventScanner`, `EventStringProofs`,
  `EventScanProofs`, `EventBounds`, `CloudEvents`, `EventVerdicts`): the scanner object with its
  position and counters, the staged observation and the decision ladder. JSON
  texts are concrete syntax trees of RFC 8259 that keep every blank and every
  escape, so "the print of a tree" ranges over exactly the JSON texts. The scanner
  reads every print up to its end, stops exactly above the bounds, and every exit
  code is characterised from the text and the context on.
- **Two-file writer** (`OutputPair`, `OutputPairProofs`): a run under a plan that
  says for every system call whether it fails; the log holds every state of the
  directory. All-or-nothing and recoverability at every crash point.
- **Python masker and KFP observation** (`Nesting`, `PythonLexer`,
  `PythonLexerProofs`, `PythonForms`, `PythonSources`, `Kubeflow`, `KubeflowProofs`,
  `KubeflowSources`): every line is written as code bytes, literals and a comment,
  its mask is what that form says, acceptance is well-nestedness of the code bytes,
  hidden bytes cannot influence anything, and a source declares an API exactly when
  its code lines are a module of the closed grammar.
- **JSON tree decoders** (`JsonTokens`, `StrictDecoder`, `CubeFsDecoder`,
  `CrioDecoder`, `OpenFga`, `OpenFgaKeys`, `OpenFgaReaders`): four recursions over one token stream, each proved
  equal to a filter on the grammar, and related to each other.
- **Corefile scanner** (`CoreDns`, `CoreDnsProofs`, `CoreDnsText`), **argument
  scans** (`ArgvScans`), **batch results** (`BatchCheck`), **Kubernetes adapters**
  (`Kubernetes`, `KubernetesLines`, `KubernetesProofs`, `KubernetesReports`).
- `Common`, `GoStrings` and `GoStringsProofs` hold what several modules share.

A loop or an object of the source is a method or a class here, proved equal to a
function of its input; the lemmas are about that function.

## How the environment is modelled

- Event texts are sequences of Unicode scalar values, which is what bytes that
  passed `utf8.Valid` are; `len` is `Utf8Length`. The answer of `json.Valid` is a
  parameter that is tied to the grammar, and `json.Unmarshal` of one string token
  is the function `Unquote`. Clock and profile are four booleans.
- Python sources, Corefiles and arguments are sequences of bytes, one `char` each.
  `strings.TrimSpace` and `strings.Fields` know the white space of Unicode by its
  UTF-8 encodings.
- `json.Decoder` is a stream of tokens with a stack of open containers and a flag
  for whether the input ends after the last token. `strings.ToLower` and
  `strings.EqualFold` are parameters, except in the counterexample, which uses
  Go's mappings on ASCII and on the code points that map into it.
- In the writer every system call has a boolean in the plan, a partial write
  leaves arbitrary bytes, and the names of the random source are part of the plan.
- The number syntax of `remainingItemCount` is a parameter; the removal table is
  any table whose lines are printed canonically.
- The event evaluation keeps status and reason code, not the prose.

## Where the code falls short of its promise

- **A latent hazard in the writer.** `output_pair.go:222-223` drops the error of
  the random source. An empty backup name would make `renameat` fail with `ENOENT`,
  which `moveExistingAt` takes for "there was no file"; if a swap failed afterwards,
  the rollback would remove the output and have nothing to put back
  (`LosesOldFile`). Only a random source that reports errors can trigger this: with
  the Go version that `cli/go.mod` names, `crypto/rand.Read` never returns one, so
  backup names are never empty and both promises hold (`PromisesHold`). `CrashSafeIff` and `AllOrNothingAlwaysIff` say exactly which
  names make them hold.
- **The OpenFGA pre-scan folds, other readers lower-case.** U+0130 lower-cases to
  `i` but does not fold to it, so `"İssuer"` passes the pre-scan and the strict
  decoder, and a lower-casing reader finds an issuer where the exact reading finds
  none (`LowerReaderDiffers`). Readers that fold always agree (`ReadersAgree`).
  Lower-casing readers pick the same members exactly when no such key stands at
  the five places (`LowerReadersIff`). They give the same answer exactly when, for
  the method `oidc`, what such keys hide is empty or the visible values make the
  document unreadable anyway (`LowerAnswersIff`).
- **A dead category.** In the body of a KFP definition the category
  `binding_rebound` (`kubeflow.go:168-170`) is unreachable (`NeverReboundInBody`).
- **Batch and single exits differ** exactly for claims that all pass on stale or
  not yet reviewed evidence (`AgreesWithSingleIff`).

## Model

| member | source | states |
|---|---|---|
| `EventScanner.JsonScanner.Space` | cli/internal/cloudeventsstructuredjson/event.go:343-347 | advances the position over exactly the leading blanks of the rest and never past the end |
| `EventScanner.JsonScanner.TakeChar` | cli/internal/cloudeventsstructuredjson/event.go:335-342 | consumes one character after blanks iff it is the wanted one |
| `EventScanner.JsonScanner.Word` | cli/internal/cloudeventsstructuredjson/event.go:328-334 | consumes a literal word iff the rest starts with it |
| `EventScanner.JsonScanner.Escape` | cli/internal/cloudeventsstructuredjson/event.go:293-322 | steps over one escape, 2, 6 or 12 characters, and reports whether it is a surrogate without its partner |
| `EventScanner.JsonScanner.Body` | cli/internal/cloudeventsstructuredjson/event.go:282-325 | stands at the closing quote iff the walk over the body reaches one, with the repair flag of the walk |
| `EventScanner.JsonScanner.StringToken` | cli/internal/cloudeventsstructuredjson/event.go:274-326 | the decoded text, the repair flag and the rest of a string token, on any input; progress on success |
| `EventScanner.JsonScanner.Unterminated` | cli/internal/cloudeventsstructuredjson/event.go:210-217 | consumes exactly the run up to the next terminator |
| `EventScanner.JsonScanner.Value` | cli/internal/cloudeventsstructuredjson/event.go:181-220 | value, rest and counters are those of the specification on any input; the position never decreases and the mutual recursion ends |
| `EventScanner.JsonScanner.Member` | cli/internal/cloudeventsstructuredjson/event.go:229-243 | one member: its decoded name within the bound, the member count, the colon and the value |
| `EventScanner.JsonScanner.Object` | cli/internal/cloudeventsstructuredjson/event.go:222-252 | the members up to the closing brace, as the specification reads them |
| `EventScanner.JsonScanner.Array` | cli/internal/cloudeventsstructuredjson/event.go:254-272 | the items up to the closing bracket, as the specification reads them |
| `EventScanner.JsonScanner.ScanRoot` | cli/internal/cloudeventsstructuredjson/event.go:127-179 | root shape, duplicate flag and selected members, as the specification reads them |
| `EventScanner.JsonScanner.RootMembers` | cli/internal/cloudeventsstructuredjson/event.go:146-178 | the loop over root members with its seen set and its selected map |
| `EventStringProofs.RepairsIffLone` | cli/internal/cloudeventsstructuredjson/event.go:293-322 | the greedy walk repairs iff some surrogate escape has no partner next to it (section 8.2 of RFC 8259) |
| `EventStringProofs.RepairIsVisible` | cli/internal/cloudeventsstructuredjson/event.go:284-291 | a repaired string always decodes to a text with a replacement character |
| `EventStringProofs.PairIsUtf16` | cli/internal/cloudeventsstructuredjson/event.go:286-291 | a decoded pair is the character whose code units in UTF-16 are the pair |
| `EventStringProofs.WalkPrinted` | cli/internal/cloudeventsstructuredjson/event.go:282-325 | on any printed body the walk ends exactly at its closing quote with the repair flag of the body |
| `EventStringProofs.UnquotePrinted` | cli/internal/cloudeventsstructuredjson/event.go:286-290 | unquoting undoes printing: the text is the decoding of the pieces |
| `EventStringProofs.ScanStringPrinted` | cli/internal/cloudeventsstructuredjson/event.go:274-326 | a printed string after blanks is read exactly, whatever follows |
| `EventScanProofs.ReadsValue` | cli/internal/cloudeventsstructuredjson/event.go:181-272 | for every tree, any blanks before and any continuation: the scanner reads its print exactly iff the tree fits the counters |
| `EventScanProofs.ReadsRootMembers` | cli/internal/cloudeventsstructuredjson/event.go:146-178 | the root loop on a print books every member in order |
| `EventScanProofs.ReadsDocument` | cli/internal/cloudeventsstructuredjson/event.go:127-179 | scanning the print of any document stops exactly at its end, with the report of its tree, iff it fits |
| `EventBounds.FitsIff` | cli/internal/cloudeventsstructuredjson/event.go:181-256 | the running depth, token and member counters reject a tree iff its height, nodes, members or names exceed the bounds |
| `EventBounds.FitsIffWithinBounds` | cli/internal/cloudeventsstructuredjson/event.go:127-256 | the same for a whole document |
| `EventBounds.DuplicateIff` | cli/internal/cloudeventsstructuredjson/event.go:155-158 | a duplicate is flagged iff two decoded root names coincide |
| `EventBounds.KeepsSelected` | cli/internal/cloudeventsstructuredjson/event.go:167-170 | exactly the six named members are kept, each with its last value |
| `CloudEvents.ValidCloudEventsString` | cli/internal/cloudeventsstructuredjson/event.go:115-125 | true iff nonempty, unrepaired and free of controls and noncharacters |
| `CloudEvents.ObserveScan` | cli/internal/cloudeventsstructuredjson/event.go:61-112 | each stage is reported iff every stage before it was admitted |
| `CloudEvents.Observe` | cli/internal/cloudeventsstructuredjson/event.go:46-113 | the observation of a text, or an error, as a function of the text |
| `CloudEvents.ObserveDocument` | cli/internal/cloudeventsstructuredjson/event.go:46-113 | on any JSON text: an error iff it is above the bounds, otherwise the observation its tree determines |
| `CloudEvents.KeptText` | cli/internal/cloudeventsstructuredjson/event.go:163-170 | a kept string is the decoded text of the last member of that name, with its lone-surrogate flag |
| `CloudEvents.EditionIff` | cli/internal/cloudeventsstructuredjson/event.go:70-81 | the edition is admitted iff specversion is a string that decodes to 1.0: a repaired string never does |
| `CloudEvents.EvaluateObserved` | cli/internal/cloudeventsstructuredjson/evaluate.go:12-76 | evaluating an observation gives the verdict read directly off the scan: the observation loses nothing the verdict needs |
| `CloudEvents.NeverOutside` | cli/internal/cloudeventsstructuredjson/evaluate.go:24-71 | no observation that `Observe` produces reaches an OBSERVATION_NOT_IN_REVIEWED_SUBSET branch |
| `CloudEvents.VerdictInside` | cli/internal/cloudeventsstructuredjson/evaluate.go:24-76 | which scans pass, as one conjunction |
| `CloudEvents.PassIffEnvelope` | cli/internal/cloudeventsstructuredjson/evaluate.go:12-76 | with an active profile a tree passes iff it is an envelope: distinct names, specversion 1.0, valid id and type, nonempty unrepaired source, not both data members |
| `EventVerdicts.AllowedIff` | cli/internal/cloudeventsstructuredjson/event.go:119-123 | the rune ranges are exactly the controls and the 66 noncharacters of Unicode |
| `EventVerdicts.InactiveClaims` | cli/internal/cloudeventsstructuredjson/evaluate.go:13-23 | PASS and FAIL only in an active context and for the known schema; the exact claim for every way of being inactive |
| `EventVerdicts.FailIffViolation` | cli/internal/cloudeventsstructuredjson/evaluate.go:33-74 | with an active profile a tree fails iff it is an object without a valid edition, or one of edition 1.0 that lacks id, source or type or has both data members |
| `EventVerdicts.ClaimExitIff` | cli/internal/cloudeventsstructuredjson/evaluate.go:87-96 | 0 iff PASS, 10 iff FAIL, 11 otherwise |
| `EventVerdicts.ExitExactly` | cli/internal/cloudeventsstructuredjson/evaluate.go:12-96 | for every text and every context: 0 iff the context is active and the text is the print of an envelope within the bounds, 10 iff it is active and the text is that of a violation, 11 for other texts within the bounds, an error for anything else |
| `OutputPair.OutputDirectory.UnlinkAt` | cli/cmd/prufyx-maintainer/output_pair.go:236-237 | removes the name unless the call fails, and logs the state before |
| `OutputPair.OutputDirectory.RenameAt` | cli/cmd/prufyx-maintainer/output_pair.go:246-254 | replaces the target unless the call fails, the source is missing or the target is empty |
| `OutputPair.OutputDirectory.WriteTempAt` | cli/cmd/prufyx-maintainer/output_pair.go:148-179 | the states and result of writing a temporary file, with its deferred removal |
| `OutputPair.OutputDirectory.MoveExistingAt` | cli/cmd/prufyx-maintainer/output_pair.go:181-190 | a missing source is reported as "had nothing", not as an error |
| `OutputPair.OutputDirectory.RestoreOld` | cli/cmd/prufyx-maintainer/output_pair.go:235-245 | the rollback: both outputs dropped, those that were moved put back |
| `OutputPair.OutputDirectory.PublishPair` | cli/cmd/prufyx-maintainer/output_pair.go:224-262 | moves, swaps, rollback and backup removal, state by state |
| `OutputPair.OutputDirectory.WriteOutputPair` | cli/cmd/prufyx-maintainer/output_pair.go:192-263 | the whole run: every logged state and the result |
| `OutputPairProofs.TempPrepares` | cli/cmd/prufyx-maintainer/output_pair.go:148-221 | while temporary files are written both outputs stay untouched at every step |
| `OutputPairProofs.RestoreKeeps` | cli/cmd/prufyx-maintainer/output_pair.go:235-245 | no step of the rollback loses an old file, even when its calls fail |
| `OutputPairProofs.CrashSafe` | cli/cmd/prufyx-maintainer/output_pair.go:192-263 | after every step of every run, whichever calls fail, each old file is under its own or its backup name until both new files are in place, and no unrelated name changes |
| `OutputPairProofs.CrashSafeIff` | cli/cmd/prufyx-maintainer/output_pair.go:222-262 | that holds for all runs with given names iff every existing output has a nonempty backup name |
| `OutputPairProofs.Outcome` | cli/cmd/prufyx-maintainer/output_pair.go:192-263 | when rollback calls succeed: the exact final directory and result of every run |
| `OutputPairProofs.ResultIff` | cli/cmd/prufyx-maintainer/output_pair.go:192-263 | success of every run, also of one whose rollback or cleanup fails: iff the temporary files are written and no move, no swap and not the last sync fails |
| `OutputPairProofs.AllOrNothing` | cli/cmd/prufyx-maintainer/output_pair.go:192-263 | a run stopped by any call before the last sync reports an error and leaves the whole directory as before; any other leaves both outputs new and nothing else changed, with an error iff that sync fails |
| `OutputPairProofs.AllOrNothingAlwaysIff` | cli/cmd/prufyx-maintainer/output_pair.go:192-263 | all runs with given names are all-or-nothing iff every existing output has a nonempty backup name |
| `OutputPairProofs.AllOrNothingIff` | cli/cmd/prufyx-maintainer/output_pair.go:222-263 | which single runs break the promise: those in which a swap fails while an existing output has no backup name |
| `OutputPairProofs.PromisesHold` | cli/cmd/prufyx-maintainer/output_pair.go:49-55 | with a random source that never reports an error every run is crash safe, and all-or-nothing when rollback calls succeed |
| `OutputPairProofs.LosesOldFile` | cli/cmd/prufyx-maintainer/output_pair.go:222-249 | what the dropped error would allow if the random source could report one: one failed rename, and the old file is gone |
| `Nesting.AcceptsIffWellNested` | cli/internal/cncfprepare/sourcelex.go:91-99 | a stack machine over three bracket kinds ends empty iff the word is well nested |
| `Nesting.PushWord` | cli/internal/cncfprepare/sourcelex.go:91-99 | a well-nested word leaves any stack as it was |
| `Nesting.PopsAll` | cli/internal/cncfprepare/sourcelex.go:91-99 | an accepted word splits into well-nested words between the closers of the stack |
| `PythonLexer.MaskFrom` | cli/internal/cncfprepare/sourcelex.go:49-100 | masking keeps the length and leaves no quote and no comment sign |
| `PythonLexer.LeadingSpaces` | cli/internal/cncfprepare/sourcelex.go:38-41 | the number of leading spaces |
| `PythonLexer.Nest` | cli/internal/cncfprepare/sourcelex.go:91-99 | pushes, pops or refuses one bracket |
| `PythonLexer.MaskByte` | cli/internal/cncfprepare/sourcelex.go:51-90 | one turn of the byte loop: what is written, the next position, mode and flag |
| `PythonLexer.MaskLine` | cli/internal/cncfprepare/sourcelex.go:49-100 | one line: its mask, mode and flag, and the stack after its brackets; refused at a mismatch |
| `PythonLexer.LexicalPythonLines` | cli/internal/cncfprepare/sourcelex.go:24-110 | lines, indents and dynamic flag of a whole source, or the error |
| `PythonLexerProofs.LexIff` | cli/internal/cncfprepare/sourcelex.go:24-110 | accepted iff no control byte, no tab after the indent, every literal closed, and the brackets left in the masked code across all lines well nested |
| `PythonLexerProofs.LexedLines` | cli/internal/cncfprepare/sourcelex.go:101-105 | trimmed lines keep indents and all brackets of the masked code, and hold no quote or comment sign |
| `PythonLexerProofs.MaskAgrees` | cli/internal/cncfprepare/sourcelex.go:49-100 | two lines that agree in their visible bytes have the same mask, end mode and flag |
| `PythonLexerProofs.Noninterference` | cli/internal/cncfprepare/sourcelex.go:24-110 | sources that differ only inside comments and literals are lexed alike |
| `PythonForms.MaskPrinted` | cli/internal/cncfprepare/sourcelex.go:49-100 | the mask of a line written as code bytes, literals and a comment: the code bytes verbatim, a mark per delimiter, blanks for what is hidden; the end mode of the form; dynamic iff a literal follows a letter, digit or underscore or holds a backslash |
| `PythonSources.FormFor` | cli/internal/cncfprepare/sourcelex.go:49-100 | every line can be written in such a form |
| `PythonSources.LineMask` | cli/internal/cncfprepare/sourcelex.go:49-100 | the same for lines that start inside triple quotes |
| `PythonSources.SourceAcceptedIff` | cli/internal/cncfprepare/sourcelex.go:24-114 | a source is accepted iff it can be written in closed forms whose own code bytes have well-nested brackets, without controls and tabs after the indent; lines, indents and the flag are those of the forms |
| `Kubeflow.ContainsIdentifier` | cli/internal/cncfprepare/kubeflow.go:197-213 | true iff the identifier occurs as a whole word, although the scan jumps over rejected occurrences |
| `Kubeflow.ParametersAdmitted` | cli/internal/cncfprepare/kubeflow.go:230-245 | true iff blank, or distinct simple identifiers |
| `Kubeflow.NextCode` | cli/internal/cncfprepare/kubeflow.go:177-184 | the first nonblank line from a position on, or none |
| `Kubeflow.BindingIsRebound` | cli/internal/cncfprepare/kubeflow.go:215-221 | the rebinding test of a line |
| `Kubeflow.InspectBody` | cli/internal/cncfprepare/kubeflow.go:147-174 | the loop over the body judges the remaining code lines one after the other |
| `Kubeflow.InspectDefinition` | cli/internal/cncfprepare/kubeflow.go:128-141 | what is wrong with a definition line, if anything |
| `Kubeflow.InspectKubeflowKfp` | cli/internal/cncfprepare/kubeflow.go:87-175 | the observation as a function of the source |
| `KubeflowProofs.MatchWordsIff` | cli/internal/cncfprepare/kubeflow.go:40-41 | an import line matches iff it is the words with blanks between them and possibly at the end |
| `KubeflowProofs.DefinitionOfIff` | cli/internal/cncfprepare/kubeflow.go:42 | the definition pattern yields a name and parameters iff the line spells them, and then uniquely |
| `KubeflowProofs.UsesIff` | cli/internal/cncfprepare/kubeflow.go:163-172 | an admitted return expression uses the binding iff it is the binding |
| `KubeflowProofs.NeverReboundInBody` | cli/internal/cncfprepare/kubeflow.go:167-171 | no line of a body is ever reported as rebinding |
| `KubeflowProofs.DeclaredIff` | cli/internal/cncfprepare/kubeflow.go:96-175 | an API is declared iff the code lines are its import, its decorator, a plain definition and an evenly indented plain body |
| `KubeflowProofs.MissingIff` | cli/internal/cncfprepare/kubeflow.go:102-118 | "binding missing" iff there is no code, or the first line is not indented and no import of either API |
| `KubeflowProofs.ReboundIff` | cli/internal/cncfprepare/kubeflow.go:132-141 | "binding rebound" iff a parameter of an otherwise admitted definition takes the name of the binding |
| `KubeflowProofs.JudgeStages` | cli/internal/cncfprepare/kubeflow.go:120-146 | which category is reported when decorator, definition or start of the body is the first stage not admitted |
| `KubeflowProofs.JudgeFirstBad` | cli/internal/cncfprepare/kubeflow.go:148-173 | after an admitted head the first line of the body that is not admitted decides: its indent, a return of the binding, or anything else |
| `KubeflowProofs.DecimalIff` | cli/internal/cncfprepare/kubeflow.go:224 | the decimal pattern: digits without a leading zero, possibly a full stop and digits |
| `KubeflowSources.SourceDeclaresIff` | cli/internal/cncfprepare/kubeflow.go:87-175 | from the source on: declared iff it can be written in forms without a dynamic literal whose rendered code lines are a module |
| `KubeflowSources.PlainSourceObserved` | cli/internal/cncfprepare/kubeflow.go:87-175 | a source without quotes, comments and tabs is judged on its own lines byte for byte, or is an error when its brackets do not nest |
| `KubeflowSources.ReturnedIff` | cli/internal/cncfprepare/kubeflow.go:160-163 | the returned value is what stands between white space after `return` |
| `KubeflowSources.ParametersIff` | cli/internal/cncfprepare/kubeflow.go:230-245 | parameters are admitted iff blank, or distinct simple identifiers with commas between them and white space around them |
| `KubeflowProofs.ObservationNoninterference` | cli/internal/cncfprepare/kubeflow.go:87-175 | the observation does not depend on bytes inside comments and literals |
| `JsonTokens.ParseIff` | cli/internal/cncfprepare/prepare.go:632-719 | parsing a token stream undoes printing, and only prints parse |
| `JsonTokens.Decoder.Next` | cli/internal/cncfprepare/prepare.go:653-656 | the next token, refused at the end and at a bracket that does not close the innermost container |
| `StrictDecoder.StrictFilters` | cli/internal/cncfprepare/prepare.go:649-719 | on any stream the recursion is the grammar followed by a test of the tree |
| `StrictDecoder.StrictIff` | cli/internal/cncfprepare/prepare.go:621-719 | accepted iff the stream prints a tree within depth, member and item bounds, with nonempty keys distinct after lower-casing and no null unless allowed; the result is that tree |
| `StrictDecoder.DecodeValue` | cli/internal/cncfprepare/prepare.go:649-719 | reads one value as specified and leaves the decoder behind it |
| `StrictDecoder.DecodeObject` | cli/internal/cncfprepare/prepare.go:660-691 | the member loop with its key set, count and map |
| `StrictDecoder.DecodeArray` | cli/internal/cncfprepare/prepare.go:692-707 | the item loop with its bound |
| `StrictDecoder.DecodeStrict` | cli/internal/cncfprepare/prepare.go:632-643 | the whole input is one value and nothing follows |
| `CubeFsDecoder.CubeFilters` | cli/internal/cncfprepare/cubefs.go:108-174 | on any stream: the grammar, the bounds, and ambiguity iff some object has colliding keys |
| `CubeFsDecoder.AdmittedIff` | cli/internal/cncfprepare/cubefs.go:108-174 | the strict rules are the bounds without collisions |
| `CubeFsDecoder.SameMeaning` | cli/internal/cncfprepare/cubefs.go:142-144 | without collisions "first wins" and "last wins" give the same value |
| `CubeFsDecoder.RefinesStrict` | cli/internal/cncfprepare/cubefs.go:95-174 | unambiguous v iff the null-allowing strict decoder returns v; ambiguous iff collisions are the only defect |
| `CubeFsDecoder.DecodeCubeFSValue` | cli/internal/cncfprepare/cubefs.go:108-174 | reads one value with its ambiguity as specified |
| `CubeFsDecoder.DecodeObject` | cli/internal/cncfprepare/cubefs.go:119-149 | the member loop: the first value of a key stays, collisions are noted |
| `CubeFsDecoder.DecodeArray` | cli/internal/cncfprepare/cubefs.go:150-167 | the item loop with its bound and its ambiguity |
| `CubeFsDecoder.DecodeCubeFSJSON` | cli/internal/cncfprepare/cubefs.go:95-106 | the whole input is one value and nothing follows |
| `CrioDecoder.CrioFilters` | cli/internal/cncfprepare/crio.go:172-246 | on any stream: the grammar, the bounds, and the report of that place |
| `CrioDecoder.CrioIff` | cli/internal/cncfprepare/crio.go:155-246 | a bounded document is accepted whatever it repeats; ambiguous iff the root, or an object-valued root image, has more than one case-folded image key or a misspelled one |
| `CrioDecoder.CrioOnlyDocuments` | cli/internal/cncfprepare/crio.go:155-170 | only prints of bounded documents are accepted |
| `CrioDecoder.ReferenceIsOnlyCandidate` | cli/internal/cncfprepare/crio.go:81-88 | unless ambiguous, the reference is what any case-insensitive reader finds, whatever else is repeated |
| `CrioDecoder.DecodeCRIOValue` | cli/internal/cncfprepare/crio.go:172-246 | reads one value with its ambiguity as specified |
| `CrioDecoder.DecodeObject` | cli/internal/cncfprepare/crio.go:185-224 | the member loop with its relevance flags |
| `CrioDecoder.DecodeArray` | cli/internal/cncfprepare/crio.go:225-242 | the item loop, outside of the root image |
| `CrioDecoder.DecodeCRIORequest` | cli/internal/cncfprepare/crio.go:155-170 | the root object and its ambiguity; another root is no object and not ambiguous |
| `OpenFga.WalkFilters` | cli/internal/cncfprepare/openfga.go:141-193 | on any stream the walk is the grammar followed by a walk over the tree |
| `OpenFga.WalkValue` | cli/internal/cncfprepare/openfga.go:141-193 | walks one value as specified |
| `OpenFga.InspectKey` | cli/internal/cncfprepare/openfga.go:160-171 | the verdict on one key: repeated exactly, or to be noted |
| `OpenFga.WalkObject` | cli/internal/cncfprepare/openfga.go:149-178 | the member loop: exact repetitions are errors, other spellings are noted |
| `OpenFga.WalkArray` | cli/internal/cncfprepare/openfga.go:179-186 | the item loop under the same path |
| `OpenFga.RelevantCaseAmbiguity` | cli/internal/cncfprepare/openfga.go:136-201 | the ambiguity of a whole input, or an error |
| `OpenFga.ReadersAgree` | cli/internal/cncfprepare/openfga.go:88-238 | after a clear pre-scan of an admitted document, what a case-folding reader may report is exactly what the exact reading reports |
| `OpenFga.ReadersAgreeOnInput` | cli/internal/cncfprepare/openfga.go:88-201 | the same for every input that the pre-scan and the strict decoder accept |
| `OpenFgaKeys.RelevantIff` | cli/internal/cncfprepare/openfga.go:203-238 | a key is relevant and not canonical iff it is a misspelling of a name of its place or spells out a path with full stops |
| `OpenFgaKeys.AmbiguityIff` | cli/internal/cncfprepare/openfga.go:136-201 | the pre-scan of any document: an error iff some key is empty or repeats the last key that lower-cases alike, otherwise ambiguous iff a key at the places that matter is misspelled, dotted or collides |
| `OpenFgaKeys.AmbiguityOnlyDocuments` | cli/internal/cncfprepare/openfga.go:194-200 | only whole documents get an answer |
| `OpenFgaKeys.FieldsIff` | cli/internal/cncfprepare/openfga.go:88-131 | which method, issuer and audience the exact reading gives, on the entries of the decoded document |
| `OpenFgaReaders.LowerReadingIff` | cli/internal/cncfprepare/openfga.go:160-171 | one name: a lower-casing reader agrees iff no other key lower-cases to it |
| `OpenFgaReaders.LowerReadersIff` | cli/internal/cncfprepare/openfga.go:88-131 | the whole document: a lower-casing reader can only pick the members that the exact reading picks iff no stray key stands at the five places |
| `OpenFgaReaders.LowerReadersReport` | cli/internal/cncfprepare/openfga.go:88-131 | all lower-casing readers of an admitted document report the same |
| `OpenFgaReaders.LowerAnswersIff` | cli/internal/cncfprepare/openfga.go:88-238 | after a clear pre-scan their answer is that of the exact reading iff the method is not oidc, or what only they see under oidc is empty, or the visible values are unreadable anyway |
| `OpenFgaReaders.GoIsPlain` | cli/internal/cncfprepare/openfga.go:203-211 | Go's mappings meet the conditions on case mappings under which the OpenFGA results are proved |
| `OpenFgaReaders.LowerReaderDiffers` | cli/internal/cncfprepare/openfga.go:225-227 | a document that passes both stages and is read differently by lower-casing |
| `CoreDns.ScanIsRun` | cli/internal/cncfprepare/coredns.go:91-99 | scanning lines is running over the token rows of the nonblank lines |
| `CoreDns.CountToken` | cli/internal/cncfprepare/coredns.go:168-176 | the number of occurrences of a token |
| `CoreDns.ContainsBrace` | cli/internal/cncfprepare/coredns.go:155-162 | whether some token is a brace |
| `CoreDns.ScanRow` | cli/internal/cncfprepare/coredns.go:99-135 | depth, blocks and flag after one row, or the refusal |
| `CoreDns.DirectFederation` | cli/internal/cncfprepare/coredns.go:88-138 | the answer for a whole text, or that it is not supported |
| `CoreDnsProofs.StepInside` | cli/internal/cncfprepare/coredns.go:110-135 | inside a block a row is taken iff it closes, is a plain directive, or opens a block within the bound |
| `CoreDnsProofs.RunServers` | cli/internal/cncfprepare/coredns.go:88-138 | every print of admitted server blocks is accepted, with the flag of its direct directives |
| `CoreDnsProofs.AcceptedParts` | cli/internal/cncfprepare/coredns.go:88-138 | every accepted run decomposes into open bodies and server blocks |
| `CoreDnsProofs.AcceptsIffBlocks` | cli/internal/cncfprepare/coredns.go:88-138 | accepted with an answer iff the rows print a nonempty list of admitted server blocks nested at most 32 deep, and the answer is whether one has a direct federation directive |
| `CoreDnsText.LayoutRow` | cli/internal/cncfprepare/coredns.go:150-153 | tokens with white space between them, braces apart, are split into exactly those tokens |
| `CoreDnsText.LayoutFor` | cli/internal/cncfprepare/coredns.go:150-153 | every text is laid out in such tokens |
| `CoreDnsText.FormOfLine` | cli/internal/cncfprepare/coredns.go:140-148 | a line of plain code and a comment is admitted, and its row is the tokens of the code |
| `CoreDnsText.LineHasForm` | cli/internal/cncfprepare/coredns.go:140-148 | only such lines are admitted |
| `CoreDnsText.RefusesQuoting` | cli/internal/cncfprepare/coredns.go:140-148 | a supported text has no quote, backslash or substitution before the first comment sign of any line |
| `CoreDnsText.TextAcceptsIffBlocks` | cli/internal/cncfprepare/coredns.go:88-176 | a text is supported with an answer iff its lines lay out a nonempty list of admitted server blocks, and the answer is whether one has a direct federation directive |
| `GoStringsProofs.SplitIff` | cli/internal/cncfprepare/coredns.go:91 | the parts of a split are the only ones without the separator that join to the text |
| `GoStringsProofs.TrimIff` | cli/internal/cncfprepare/coredns.go:147 | trimming removes white space at both ends, and all of it |
| `GoStringsProofs.FieldsWord` | cli/internal/cncfprepare/coredns.go:152 | a word up to white space is a field, and the fields of the rest follow |
| `GoStringsProofs.LessIff` | cli/internal/batchcheck/batchcheck.go:433 | the order of reason codes is lexicographic |
| `ArgvScans.ScanRemoved` | cli/internal/cncfprepare/removedargv.go:50-79 | resolved iff no token can hide a spelling; then present iff some token or its name half is a removed spelling |
| `ArgvScans.OrderIndependent` | cli/internal/cncfprepare/removedargv.go:50-79 | the result is the same for every permutation of the tokens |
| `ArgvScans.ScanSpire` | cli/internal/cncfprepare/spire.go:184-202 | resolved iff no bare dash token; then present iff a ttl spelling occurs |
| `ArgvScans.SpireExtends` | cli/internal/cncfprepare/spire.go:184-202 | whenever the shared scan resolves on the ttl spellings, this one resolves with the same answer |
| `ArgvScans.ScanSelectors` | cli/internal/cncfprepare/kubeedge.go:251-311 | the selector form, with the jumps over values |
| `ArgvScans.VersionFlagIff` | cli/internal/cncfprepare/kubeedge.go:251-311 | "version flag only" iff at every position no profile spelling, every version option selects the target, and there is one |
| `ArgvScans.LegacyIff` | cli/internal/cncfprepare/kubeedge.go:251-311 | "legacy" iff at every position no version spelling, every profile has a version key, and there is one |
| `ArgvScans.SelectionIs` | cli/internal/cncfprepare/kubeedge.go:251-311 | every form and the unresolved result, by what stands at the positions that are not values of a selector before them |
| `BatchCheck.Categories` | cli/internal/batchcheck/batchcheck.go:413-426 | the categories that occur, each once, by falling rank |
| `BatchCheck.LeastReasonOf` | cli/internal/batchcheck/batchcheck.go:429-436 | the least reason code of the category, or none |
| `BatchCheck.FromClaims` | cli/internal/batchcheck/batchcheck.go:409-447 | the summary of the claims, stated without their order |
| `BatchCheck.CategoryIff` | cli/internal/batchcheck/batchcheck.go:449-463 | each category of a claim, on its status, freshness and reason code |
| `BatchCheck.CategoryOfItemIs` | cli/internal/batchcheck/batchcheck.go:409-427 | the category of an item: blocked before not yet reviewed before stale before anything but a pass, on the fields of its claims |
| `BatchCheck.SummaryIs` | cli/internal/batchcheck/batchcheck.go:427-446 | category, outcome and default reason of a summary, on the fields of the claims |
| `BatchCheck.SummaryUnique` | cli/internal/batchcheck/batchcheck.go:409-447 | every permutation of the claims has the same summary |
| `BatchCheck.Aggregate` | cli/internal/batchcheck/batchcheck.go:480-492 | the category of the highest rank and its exit |
| `BatchCheck.WorstUnique` | cli/internal/batchcheck/batchcheck.go:480-492 | every permutation of the items has the same aggregate |
| `BatchCheck.ExitZeroIff` | cli/internal/batchcheck/batchcheck.go:449-511 | exit 0 iff every item has claims and each has status PASS, is neither stale nor before its review, and carries neither of the two reason codes for that |
| `BatchCheck.BatchExitIs` | cli/internal/batchcheck/batchcheck.go:480-511 | every exit of a batch: 3 for an integrity error, else 2 for an input error, else 10 for a blocked claim, else 0 iff all is clear, else 11 |
| `BatchCheck.ExitForMode` | cli/internal/batchcheck/batchcheck.go:515-534 | in both modes the exit is that of the stored aggregate, or of the items when it is missing, except that detailed tells stored stale and not yet reviewed apart; other modes are errors |
| `BatchCheck.NamedIff` | cli/internal/batchcheck/batchcheck.go:494-511 | category names are read back as written; a stored name exits 0 iff it is not the name of a failing category, so unknown names exit 0 |
| `BatchCheck.ClaimExit` | cli/internal/cncfcheck/check.go:164-184 | 3 if the report does not marshal, 11 without claims, 10 if one is blocked, 0 if all pass, 11 otherwise |
| `BatchCheck.AgreesWithSingleIff` | cli/internal/batchcheck/batchcheck.go:449-511 | a one-item batch exits like the single check except exactly when all claims pass and one is stale or not yet reviewed |
| `KubernetesLines.VersionPartsIff` | cli/internal/cncfprepare/kubernetes_removed_apis.go:133-146 | a text parses as a version iff it is its canonical print with 32-bit segments |
| `KubernetesLines.CrossedLineIff` | cli/internal/cncfprepare/kubernetes_removed_apis.go:122-131 | a line is crossed iff the versions stand on it and on the line before it |
| `KubernetesLines.PatchesIgnored` | cli/internal/cncfprepare/kubernetes_removed_apis.go:103-120 | other patch numbers select the same rows |
| `KubernetesLines.AnchorView` | cli/internal/cncfprepare/kubernetes_removed_apis.go:84-92 | the derived view maps exactly the anchor pairs of the lines to their rows, in whatever order the table is walked |
| `KubernetesLines.AnchorSelectsCrossed` | cli/internal/cncfprepare/kubernetes_removed_apis.go:98-120 | selection by anchor is selection by crossed line restricted to pairs with zero patches |
| `KubernetesLines.CrossingSelectsAnchor` | cli/internal/cncfprepare/kubernetes_removed_apis.go:98-120 | every crossing selects what the anchor pair of its line selects |
| `Kubernetes.Collect` | cli/internal/cncfprepare/kubernetes_removed_apis.go:287-298 | the documents of a list, or none if an item is refused |
| `Kubernetes.ReadDocuments` | cli/internal/cncfprepare/kubernetes_removed_apis.go:254-300 | the documents of an apply set, or why there are none |
| `Kubernetes.Classify` | cli/internal/cncfprepare/kubernetes_removed_apis.go:230-249 | whether the removed version occurs and whether an unreviewed one does |
| `Kubernetes.ClassifyTable` | cli/internal/cncfprepare/kubernetes_removed_apis.go:197-213 | one fact per row, and whether some row is present or undecided |
| `Kubernetes.PrepareRemoved` | cli/internal/cncfprepare/kubernetes_removed_apis.go:170-225 | the report of the general adapter on a reviewed line |
| `Kubernetes.PrepareRemovedApis` | cli/internal/cncfprepare/kubernetes_removed_apis.go:165-225 | which adapter runs, and its report |
| `Kubernetes.InspectDocuments` | cli/internal/cncfprepare/kubernetes.go:105-127 | the dedicated loop with its early exits |
| `Kubernetes.PrepareFlowControl` | cli/internal/cncfprepare/kubernetes.go:25-140 | the report of the dedicated adapter |
| `KubernetesProofs.InspectIs` | cli/internal/cncfprepare/kubernetes.go:105-127 | the early-exit loop is unclear iff the set is not flat or has an unreviewed version, and otherwise finds the removed version iff it occurs |
| `KubernetesProofs.FlatOrUnresolved` | cli/internal/cncfprepare/kubernetes_removed_apis.go:254-300 | the two adapters see the same documents, but the general one refuses unflat sets beforehand |
| `KubernetesProofs.AdaptersAgree` | cli/internal/cncfprepare/kubernetes.go:25-140 | on every input the dedicated adapter emits the fact and state that the general one emits on the one-row table |
| `KubernetesProofs.RowIsRedundant` | cli/internal/cncfprepare/kubernetes_removed_apis.go:165-169 | giving the dedicated line a row in the table changes no fact and no state of any upgrade |
| `KubernetesProofs.ReviewedIsUpgrade` | cli/internal/cncfprepare/kubernetes_removed_apis.go:302-305 | on a reviewed line the version check never refuses |
| `KubernetesProofs.FactOrderIndependent` | cli/internal/cncfprepare/kubernetes_removed_apis.go:230-249 | a fact depends neither on the order nor on repetitions of the documents |
| `KubernetesProofs.SortRowsSorts` | cli/internal/cncfprepare/kubernetes_removed_apis.go:306-307 | sorting keeps the rows and lists them by identifier |
| `KubernetesProofs.ReportOrderIndependent` | cli/internal/cncfprepare/kubernetes_removed_apis.go:165-225 | facts, state and reason of the general adapter depend neither on the order of the documents nor on the order of the table |
| `KubernetesReports.GvkIff` | cli/internal/cncfprepare/kubernetes.go:142-190 | version and kind of a document are resolved iff both are strings and well-formed names: dotted groups of nonempty labels, one slash, a version and a kind |
| `KubernetesReports.PaginationIff` | cli/internal/cncfprepare/kubernetes.go:192-221 | the metadata can be read iff a continuation is a string and a remaining count a count; there is more iff the one is not empty or the other not zero |
| `KubernetesReports.SetIsRead` | cli/internal/cncfprepare/kubernetes_removed_apis.go:254-300 | one flat document, or a nonempty flat list of core version 1 with readable metadata, is read as its documents |
| `KubernetesReports.ReadIsSet` | cli/internal/cncfprepare/kubernetes_removed_apis.go:254-300 | nothing else is |
| `KubernetesReports.FactIff` | cli/internal/cncfprepare/kubernetes_removed_apis.go:230-249 | a fact is undecided iff a document of the group and kinds has an unreviewed version, otherwise present iff one has the removed version |
| `KubernetesReports.GeneralDeclares` | cli/internal/cncfprepare/kubernetes_removed_apis.go:165-225 | when the input is readable, guarded and complete and its set is whole, the report has exactly the rows of the table for the documents, its state and its reason |
| `KubernetesReports.GeneralDeclaresNothing` | cli/internal/cncfprepare/kubernetes_removed_apis.go:165-225 | otherwise nothing is declared, and the refusal or the reason says why |
| `KubernetesReports.DedicatedDeclares` | cli/internal/cncfprepare/kubernetes.go:25-140 | the same for the one row of the dedicated adapter |
| `KubernetesReports.DedicatedDeclaresNothing` | cli/internal/cncfprepare/kubernetes.go:25-140 | otherwise the dedicated adapter declares nothing |
| `KubernetesReports.FlowReasons` | cli/internal/cncfprepare/kubernetes.go:128-138 | its two final reasons come exactly with a declared fact |

## Left out

- Signing, publishing, knowledge bundles, digests, sealed reports and canonical marshalling.
- The literal tables of removals and check routes: the results hold for every table.
- `noDuplicateJSON` and the request decoding of the batch: they add no argument beyond that of the decoders here.
- `inspectReportsControllerArguments` and `inspectKeadmInitArgv`: guard ladders around the scans modelled here.
- `classifyCRIOReference`: a grammar of image references that stands on its own.
- Opening the output directory, symlink and ownership checks, file modes and durability of `fsync`: one boolean refuses the run; the model is about names and bytes.
- The text of reasons, actions and omissions.
- YAML and TOML adapters and the remaining preparers with fixed field lookups.
- Command-line parsing, prompts and collection from a cluster.
- Kubernetes.InspectDocuments: the order in which reasons compete in the two adapters is modelled but not compared, since the adapters word them differently.
