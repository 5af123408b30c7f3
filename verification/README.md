# netcluster: a verified model of its core logic

netcluster discovers network devices over SNMP and groups them into clusters: a device's hostname is
matched against ordered rules, the captured parts are transformed by small pipelines, and a template
renders them into the key of the cluster the device belongs to. This project models that core in
Dafny and proves what it promises.

| files | component |
|---|---|
| `Wrappers`, `Runes` | optional values and results; Unicode classes and UTF-8 widths |
| `Dsl`, `DslGrammar`, `DslReader`, `DslText`, `DslSyntax`, `DslParser` | the transform language: its syntax as a grammar of concrete syntax trees, what the parser computes, the theorems relating the two, the punctuation spelled out, and the cursor parser itself |
| `DslOps`, `DslJson`, `DslEncodings` | the op registry and interpreter, the JSON encoding, and how the two encodings relate |
| `Template`, `RuleEngine` | the template scanner, first-match evaluation, and rule validation |
| `RuleOrder` | the rules table and its two-pass renumbering |
| `Store`, `Assignment`, `Redistribution` | the tables with their constraints, concurrent assignments, bulk redistribution |
| `Targets` | address arithmetic, ranges and CIDR blocks |
| `Discovery`, `Orchestrator` | a discovery run as a step system, and its code |
| `Placement` | the same run over the tables, the statements of all its scans interleaving |
| `CancelRegistry`, `DiscoveryHandler` | background jobs with the registry of cancel functions, and its code |

Code that changes state is modelled by methods and classes, proved against functions on values; what
the code promises is then proved of those functions. Concurrency is modelled by step systems: a run is
any list of enabled steps, what the network and the database answer is part of a step, and each
theorem holds of every run. The sequential methods perform steps of those systems, and between two of
them let everything else that may move take any steps.

No proof relies on Dafny's automatic induction (`--manual-lemma-induction` turns it off).

`dafny verify dfyconfig.toml` checks the whole project.

## What the proofs found

Where the code and its own comments or documentation differ, the model follows the code.

- `Run` says that it always leaves a job in a terminal status (internal/discovery/orchestrator.go:77-80).
  It does exactly when it got past its first status write and its last one went through
  (`Discovery.TerminalIffStored`); `Discovery.RunMayEndOpen` gives two runs where it does not.
- `Reorder` says that no existing row can hold a negative placeholder
  (internal/storage/postgres/rule_repo.go:97-100). Nothing rejects a negative priority, and one can
  block the reordering (`RuleOrder.NegativePriorityBlocks`). `RuleOrder.ReorderCommitsIff` gives the
  exact condition, and `RuleOrder.NonNegativeTables` what is left of it when no priority is negative.
- A cluster can be deleted only while it is empty (internal/domain/errors.go:10-13), but an empty one
  may be refused as well: history rows refer to clusters too (`Assignment.EmptyClustersMayStay`).
  `Assignment.EmptyClusterDeletableIff` says exactly when: once an assignment has placed an element
  there.
- The guard of the padding loop counts bytes as well as runes (internal/dsl/ops.go:268), so a value
  with multi-byte runes may stay shorter than asked for (`DslOps.PadStopsShort`);
  `DslOps.PadReachesLength` says exactly when.
- `FromJSON` says that every argument must map to a registered name, and that nothing is silently dropped
  (internal/dsl/json.go:52-55). An argument with an unknown name is dropped, and a null in a table becomes
  the empty string (`DslJson.DecodingIsSilent`); a null argument becomes one without a value, which cannot
  be encoded again (`DslJson.DecodeEncodeFixpoint`). `DslJson.DecodedPipelineRoundTrip` says exactly when
  nothing is lost. There is also no cap on the number of steps (`DslEncodings.JsonHasText`).
- An argument is said never to hold more than one kind of value (internal/dsl/pipeline.go:11-12), which the
  type does not enforce. Neither decoder produces such an argument (`DslText.ParseImage`,
  `DslJson.DecodedIsWellFormed`); one built in Go code would not survive JSON (`DslJson.ArgRoundTrip`).
- `Cancel` ignores a database error of its job lookup other than not found
  (internal/api/http/discovery.go:214-217), so that a job that does not exist can be answered as not running
  (`CancelRegistry.LookUpTells`).
- Rediscovering a soft-deleted element updates its row but leaves it deleted
  (`Store.RediscoveryKeepsAssignment`).

## Model

| member | source | states |
|---|---|---|
| DslParser.Parser.SkipSpace | internal/dsl/parser.go:185-189 | the cursor moves past the longest run of white space, and no further |
| DslParser.Parser.ParseIdent | internal/dsl/parser.go:105-115 | reads the longest identifier, or reports that none starts here |
| DslParser.Parser.ParseString | internal/dsl/parser.go:139-164 | reads a string literal up to its first unescaped quote, any rune after a backslash standing for itself; both ways of being unterminated are errors |
| DslParser.Parser.ParseInt | internal/dsl/parser.go:166-183 | reads an optional sign and all digits; the value is that of the numeral, an error without digits, with non-ASCII digits or outside 64 bits |
| DslParser.Parser.ParseArg | internal/dsl/parser.go:117-137 | a string, an integer, or an error, chosen by the first rune |
| DslParser.Parser.ParseArgs | internal/dsl/parser.go:77-94 | the argument loop: one argument or more separated by commas, all kept in order |
| DslParser.Parser.ParseStep | internal/dsl/parser.go:63-103 | name, parenthesis, arguments and closing parenthesis with white space anywhere between; every error case with its op name |
| DslParser.Parser.ParsePipeline | internal/dsl/parser.go:36-61 | blank input is the empty pipeline; otherwise steps separated by bars up to the end of the input |
| DslParser.Parser.ParseStages | internal/dsl/parser.go:42-60 | the step loop terminates with the cursor in bounds, and returns the steps in order or the first error |
| DslParser.Parse | internal/dsl/parser.go:19-29 | the parser started on the whole text computes `ParseResult`, step cap included |
| DslText.PipelineComplete | internal/dsl/parser.go:36-183 | lossless: for every concrete syntax tree, reading its text gives back that very tree, with all white space, quotes and escapes |
| DslText.PipelineSound | internal/dsl/parser.go:36-183 | nothing is invented: an accepted text is the text of the tree that was built |
| DslText.Unambiguous | internal/dsl/parser.go:36-183 | no text has two syntax trees |
| DslText.ParseIffDerives | internal/dsl/parser.go:16-29 | `Parse` returns p if and only if the grammar derives p from the text and p has at most 20 steps |
| DslText.TooManyIffLong | internal/dsl/parser.go:25-27 | the step-cap error appears if and only if the text is otherwise correct, with the true number of steps |
| DslText.EveryLayoutParses | internal/dsl/parser.go:19-183 | text round trip for every layout, quote style and escaping: the text of a tree parses to the pipeline it denotes |
| DslText.PrintParses | internal/dsl/parser.go:19-183 | the canonical text of any pipeline of at most 20 steps with identifier names and string or 64-bit integer arguments parses to exactly that pipeline |
| DslText.ParseImage | internal/dsl/parser.go:19-183 | exactly those pipelines come out of `Parse` |
| DslText.DecimalValue | internal/dsl/parser.go:178 | decimal numerals denote the number they were printed from |
| DslSyntax.IdentifierMeans | internal/dsl/parser.go:105-115 | an identifier is a letter or underscore followed by letters, digits and underscores |
| DslSyntax.QuotedParses | internal/dsl/parser.go:139-164 | text between double or between single quotes is that string |
| DslSyntax.EscapedParses | internal/dsl/parser.go:148-156 | after a backslash any rune stands for itself, quotes and backslash included |
| DslSyntax.NumeralParses | internal/dsl/parser.go:166-183 | a decimal numeral up to 2^63 - 1 is that integer |
| DslSyntax.NegativeParses | internal/dsl/parser.go:166-183 | a minus sign and a numeral up to 2^63 is the negative integer |
| DslSyntax.ArgumentsParse | internal/dsl/parser.go:75-95 | arguments are separated by commas, in order |
| DslSyntax.StepParses | internal/dsl/parser.go:36-103 | a step has parentheses even without arguments, and a blank text has no steps |
| DslSyntax.StepsParse | internal/dsl/parser.go:42-60 | steps are separated by bars, in order |
| DslSyntax.BrokenSteps | internal/dsl/parser.go:63-116 | the errors of a text that does not start with a step, or breaks off in one |
| DslSyntax.BrokenArguments | internal/dsl/parser.go:117-183 | the errors of an argument that is none, or breaks off: strings, escapes, signs and digits that are not ASCII |
| DslSyntax.BrokenSequences | internal/dsl/parser.go:50-99 | the errors of an argument list that is not closed and of a step followed by anything but a bar |
| Runes.WidthIsEncodedLength | internal/dsl/ops.go:268 | the byte width used for `len` is the length of the rune's UTF-8 encoding by the table of RFC 3629 |
| DslOps.RegistryNamesEveryArgument | internal/dsl/ops.go:23-217 | every registered op names as many arguments as it allows, all different, and its arity range is not empty |
| DslOps.TextOpsRegistered | internal/dsl/ops.go:23-121 | arity and argument names of the trimming, case and replacing ops, literally: the JSON wire format |
| DslOps.OtherOpsRegistered | internal/dsl/ops.go:122-217 | the same for all other ops |
| DslOps.UnknownIff | internal/dsl/pipeline.go:39-42 | an op is unknown if and only if its name is none of the eighteen |
| DslOps.WrongArityIff | internal/dsl/pipeline.go:43-49 | the arity error appears if and only if the count is out of range, with the range and the count; any other failure of a known op is one inside it |
| DslOps.CaseAndSpaceOps | internal/dsl/ops.go:24-61 | by name: "trim", "upper", "lower", "trimLeft" and "trimRight" are the library functions of those names |
| DslOps.ReplacingOps | internal/dsl/ops.go:62-121 | by name: "replace" replaces all, "replaceN" the first n, "deleteSubstring" all by nothing |
| DslOps.RegexOp | internal/dsl/ops.go:94-111 | "replaceRegex" replaces the matches of a pattern, or reports that it does not compile |
| DslOps.RangeOps | internal/dsl/ops.go:122-160 | "slice" keeps and "deleteRange" drops the runes of a range, if and only if it lies in the value |
| DslOps.InsertOp | internal/dsl/ops.go:133-150 | "insertAt" puts the text at its position, if and only if that lies in the value |
| DslOps.AffixOps | internal/dsl/ops.go:161-180 | "prefix" puts the text in front, "suffix" behind |
| DslOps.TableOps | internal/dsl/ops.go:193-216 | "default" replaces only the empty value; "mapValues" looks up, and leaves a missing key alone unless there is a fallback |
| DslOps.PaddingOps | internal/dsl/ops.go:181-280 | "padLeft" adds in front and "padRight" behind: the same runes, those of the pad over and over, none if the value is long enough; an empty pad is an error |
| DslOps.OpsNeedTheirKinds | internal/dsl/ops.go:219-249 | an op succeeds only on arguments of its kinds |
| DslOps.Pad | internal/dsl/ops.go:251-280 | the two-part loop guard terminates and adds the least number of copies that reaches the length in bytes, cut to the missing runes; all error cases |
| DslOps.PaddedLength | internal/dsl/ops.go:263-279 | the length in runes of a padded value, for all values, lengths and pads |
| DslOps.PaddedShape | internal/dsl/ops.go:271-279 | the value is kept whole as suffix or prefix, and the padding is a prefix of the pad repeated |
| DslOps.PadReachesLength | internal/dsl/ops.go:264-275 | the length asked for is reached if and only if the copies the byte guard admits have enough runes; on single-byte text it always is, exactly |
| DslOps.PadStopsShort | internal/dsl/ops.go:268 | a value that the byte guard leaves too short |
| DslOps.DeletedSliceCanBeInserted | internal/dsl/ops.go:122-160 | `slice` and `deleteRange` accept the same ranges, and inserting the slice where the range was deleted restores the value |
| DslOps.AffixesCanBeSliced | internal/dsl/ops.go:151-180 | slicing a prefixed or suffixed value gives back the text on its side and the value on the other |
| DslOps.Apply | internal/dsl/pipeline.go:36-53 | threads the value through all steps and stops at the first unknown op, arity mismatch or failing op |
| DslOps.ApplyConcat | internal/dsl/pipeline.go:36-53 | running a concatenation is running one pipeline after the other |
| DslOps.WellFormedIffNoRegistryError | internal/dsl/pipeline.go:33-45 | a pipeline of registered ops with allowed arities fails only inside an op; any other fails on every input |
| DslJson.MarshalJSON | internal/dsl/json.go:16-37 | encodes every op with its arguments under their registered names, or reports the first op or argument that cannot be |
| DslJson.ArgsFromJSON | internal/dsl/json.go:69-84 | reads arguments in registry order, up to the first optional one that is absent |
| DslJson.FromJSON | internal/dsl/json.go:56-89 | decodes every op in order, or reports the first error |
| DslJson.ArgumentsAreWritten | internal/dsl/json.go:102-113 | a string argument is written as that JSON string, an integer as that number, a table as an object of its strings |
| DslJson.ArgumentsAreRead | internal/dsl/json.go:115-129 | exactly which JSON values are read as arguments, and as which |
| DslJson.ArgumentsAreNamed | internal/dsl/json.go:24-34 | the argument at each position is written under the registered name of that position, and no other name is |
| DslJson.ExtraArgument | internal/dsl/json.go:95-100 | an argument beyond the registered ones is written under its number |
| DslJson.DecodeOpOk | internal/dsl/json.go:64-84 | an op is accepted if and only if it is registered, its required arguments are there, and those that are there can be read |
| DslJson.DecodeArgsError | internal/dsl/json.go:70-82 | the first argument that is missing or cannot be read is the one reported |
| DslJson.EncodeArgsError | internal/dsl/json.go:25-30 | the first argument without a value is the one reported |
| DslJson.DecodeError | internal/dsl/json.go:63-82 | the first op that cannot be read decides the error |
| DslJson.EncodeError | internal/dsl/json.go:18-30 | the first op that cannot be written decides the error |
| DslJson.ArgRoundTrip | internal/dsl/json.go:102-129 | an argument can be written if and only if it has a value, and reads back as itself if and only if it has one kind |
| DslJson.OpRoundTrip | internal/dsl/json.go:18-34 | an op survives if and only if its arity is allowed and each argument has one kind |
| DslJson.PipelineRoundTrip | internal/dsl/json.go:16-89 | JSON round trip: decoding inverts encoding on exactly the pipelines of registered ops with allowed arity and one-kind arguments |
| DslJson.EncodeOk | internal/dsl/json.go:18-36 | encoding succeeds if and only if all ops are registered and all arguments have a value |
| DslJson.DecodedIsWellFormed | internal/dsl/json.go:56-89 | whatever `FromJSON` accepts passes the interpreter's registry and arity checks |
| DslJson.DecodeEncodeFixpoint | internal/dsl/json.go:16-129 | a decoded pipeline encodes again if and only if none of its arguments was null, and then decodes to itself |
| DslJson.DecodingIsSilent | internal/dsl/json.go:52-84 | an accepted op whose unknown argument is dropped, and one whose null table member becomes the empty string |
| DslJson.ValueRoundTrip | internal/dsl/json.go:102-129 | a JSON value that is read as an argument is written back unchanged if and only if it is a string, a 64-bit integer or an object of strings |
| DslJson.DecodedOpRoundTrip | internal/dsl/json.go:62-87 | an accepted op is written back unchanged if and only if every argument present has a registered name and such a value |
| DslJson.DecodedPipelineRoundTrip | internal/dsl/json.go:16-89 | the other half of the JSON round trip: encoding inverts decoding on exactly the accepted arrays whose arguments all have registered names and such values |
| DslEncodings.TextSurvivesJson | internal/dsl/json.go:39-50 | a parsed pipeline survives the JSON encoding if and only if it is well formed; one that does not fails on every input |
| DslEncodings.JsonHasText | internal/dsl/parser.go:10-29 | a decoded pipeline has a text if and only if it has neither tables nor nulls and is within the step cap |
| DslEncodings.PrintableIffNoTables | internal/dsl/parser.go:117-137 | the only obstacle to a text is an argument that is not a string or an integer |
| Template.WalkTemplateTokens | internal/ruleengine/template.go:39-62 | the index loop visits exactly the segments of the recursive definition, in order |
| Template.WalkIffSegmented | internal/ruleengine/template.go:35-62 | the visits are the one and only segmentation of the template: joined again they are the template, tokens end at the first closing brace, literals are maximal, and only the last may be an unclosed brace |
| Template.RenderTemplate | internal/ruleengine/template.go:11-21 | writes literals and values in order, nothing for a missing token |
| Template.ExtractTemplateTokens | internal/ruleengine/template.go:25-33 | the token names in order of appearance |
| Template.RenderText | internal/ruleengine/template.go:43-46 | text without an opening brace stands for itself |
| Template.RenderToken | internal/ruleengine/template.go:11-18 | a token stands for its value, or for nothing without one |
| Template.RenderOpenBrace | internal/ruleengine/template.go:52-56 | a brace that is not closed stands for itself |
| Template.TokensInOrder | internal/ruleengine/template.go:25-33 | the tokens of a concatenation are those of its parts in order, if the left part leaves no brace open |
| Template.RenderIdentity | internal/ruleengine/template.go:11-21 | mapping each token to its own braces renders the template itself |
| Template.ClosedIffBracesClosed | internal/ruleengine/template.go:37-57 | the scanner leaves no brace open if and only if no opening brace comes after the last closing one |
| Template.RenderDistributesIffClosed | internal/ruleengine/template.go:35-62 | rendering distributes over appending, for all right parts and values, if and only if no opening brace of the left part comes after its last closing one |
| RuleEngine.EvaluateMatch | internal/ruleengine/ruleengine.go:59-95 | each group name has what its own group captured, each transformed value is the raw one or what its pipeline makes of it, the key is the rendered template, and the empty key is warned of, in whatever order Go visits the captures |
| RuleEngine.CaptureAt | internal/ruleengine/ruleengine.go:68-73 | a name has the value of its last group |
| RuleEngine.MatchSays | internal/ruleengine/ruleengine.go:59-95 | the outcome of a match part by part: rule, pattern, captures, transforms with raw fallback, key, and exactly the warnings of failing pipelines |
| RuleEngine.TransformCaptures | internal/ruleengine/ruleengine.go:75-87 | for every order of the map iteration: the transformed map has the domain of the raw one, and the warnings are those of the failing pipelines, each once |
| RuleEngine.OrderIndependent | internal/ruleengine/ruleengine.go:75-87 | two evaluations of one match agree on everything but the order of the transform warnings |
| RuleEngine.OneWarningPerFailure | internal/ruleengine/ruleengine.go:79-83 | there are exactly as many transform warnings as failing pipelines |
| RuleEngine.WellFormedRulesFailInOps | internal/ruleengine/ruleengine.go:77-85 | with the registry's interpreter, a rule whose pipelines are well formed only warns of an op that failed on the capture's raw value |
| RuleEngine.RawCaptureNames | internal/ruleengine/ruleengine.go:68-73 | the raw captures are exactly the named groups |
| RuleEngine.Evaluate | internal/ruleengine/ruleengine.go:34-57 | reports rule, captures, transforms and key of the first rule that is enabled, compiles and matches, and an empty result if there is none |
| RuleEngine.MatchesMeans | internal/ruleengine/ruleengine.go:35-48 | a rule matches if and only if it is enabled, its pattern compiles, and the pattern finds something |
| RuleEngine.EvaluationPicksFirst | internal/ruleengine/ruleengine.go:30-51 | the outcome is that of the first rule that is enabled, compiles and matches |
| RuleEngine.NoMatchIffNone | internal/ruleengine/ruleengine.go:53-56 | no rule is reported if and only if none matches, and then nothing else is either |
| RuleEngine.EvaluationConcat | internal/ruleengine/ruleengine.go:34-57 | evaluation splits over list concatenation |
| RuleEngine.EvaluationNamesRule | internal/ruleengine/ruleengine.go:59-64 | the rule reported is one of the list |
| RuleEngine.UnusableRulesIgnored | internal/ruleengine/ruleengine.go:36-43 | evaluating only the enabled, compiling rules gives the same outcome |
| RuleEngine.ValidateRule | internal/ruleengine/validate.go:27-61 | all undefined transforms, each once, then all undefined tokens in template order; or the one pattern error |
| RuleEngine.VerdictSays | internal/ruleengine/validate.go:27-61 | which errors are reported: each undefined transform exactly once, and the undefined tokens |
| RuleEngine.UndefinedTokensAre | internal/ruleengine/validate.go:51-58 | the undefined tokens are the template's tokens without those that name a group, in order and with repetitions |
| RuleEngine.ValidIffWellDefined | internal/ruleengine/validate.go:21-61 | no error is reported if and only if the pattern compiles and every transform and token names one of its groups |
| RuleEngine.ValidRulesRenderTotally | internal/ruleengine/validate.go:21-61 | on every matching hostname, all tokens have a value if and only if all name a group; so a valid rule never takes the missing-token fallback, its key is the interleaving of literals and values, and no transform is unused |
| RuleOrder.RuleRepo.Reorder | internal/storage/postgres/rule_repo.go:101-125 | both passes in one transaction: commits if and only if nothing is in the way, with the placed table, and otherwise leaves the table as it was |
| RuleOrder.PassKeepsUnique | internal/storage/postgres/rule_repo.go:108-119 | priorities are pairwise distinct after every single update of either pass |
| RuleOrder.PassResult | internal/storage/postgres/rule_repo.go:108-119 | after n updates of a pass each listed rule sits at the slot of its last mention, or the pass has failed, exactly when a slot was taken or out of range |
| RuleOrder.ReorderCommitsIff | internal/storage/postgres/rule_repo.go:95-125 | the exact condition under which both passes succeed, for all tables and lists, duplicates and unknown ids included, and the table they leave |
| RuleOrder.NonNegativeTables | internal/storage/postgres/rule_repo.go:97-100 | without negative priorities, only an unlisted rule on a listed rule's final value (or a list too long for the column) is in the way |
| RuleOrder.NegativePriorityBlocks | internal/storage/postgres/rule_repo.go:97-100 | a valid table with a negative priority on which reordering fails |
| RuleOrder.PlacedSays | internal/storage/postgres/rule_repo.go:114-119 | the placed table row by row: the rule at position i has 10(i+1), unlisted rules are as they were, and nothing but priorities changes |
| RuleOrder.PlacedInOrder | internal/storage/postgres/rule_repo.go:114-119 | after a commit, distinct listed rules are in exactly the requested order |
| RuleOrder.ListingAfterReorder | internal/storage/postgres/rule_repo.go:79-84 | the enabled listing after a full reordering is the enabled rules in the requested order |
| RuleOrder.ReorderDecidesEvaluation | internal/storage/postgres/rule_repo.go:77-125 | end to end: after a committed reordering of all rules, evaluating the listing picks the first id of the list whose rule is enabled, compiles and matches |
| RuleOrder.LaterReorderOverrides | internal/storage/postgres/rule_repo.go:101-125 | a later full reordering always commits, and its result does not depend on the earlier one |
| Store.Database.GetOrCreateByLookupKey | internal/storage/postgres/cluster_repo.go:24-40 | the cluster with the key, or a new one named like it; no other row changes |
| Store.Database.RenameCluster | internal/storage/postgres/cluster_repo.go:94-111 | changes only display name and, if given, description; the key stays |
| Store.Database.Delete | internal/storage/postgres/cluster_repo.go:113-126 | removes exactly the one row; reports a missing or a referenced cluster and then changes nothing |
| Store.Database.Upsert | internal/storage/postgres/element_repo.go:43-62 | creates or refreshes the element with that address |
| Store.Database.Assign | internal/storage/postgres/element_repo.go:134-147 | writes cluster, rule and status of one element, or reports the missing row or broken reference; the invariant is kept when status and cluster agree and the cluster carries the key |
| Store.Database.SoftDeleteElement | internal/storage/postgres/element_repo.go:151-163 | marks a live element deleted, keeping its row |
| Store.Database.AppendHistory | internal/storage/postgres/history_repo.go:22-45 | appends one row whose references all resolve, or fails; the invariant is kept when the row's cluster carries its key |
| Store.GetOrCreateSays | internal/storage/postgres/cluster_repo.go:24-40 | column by column: the existing row as it is, or one new row with a new id, the key as display name and no description |
| Store.RenameSays | internal/storage/postgres/cluster_repo.go:94-111 | column by column: display name, and description if given; fails only without a row |
| Store.DeleteSays | internal/storage/postgres/cluster_repo.go:113-126 | succeeds if and only if no element and no history row names the cluster; then the row is gone, the others are unchanged, and a second delete does not find it |
| Store.UpsertSays | internal/storage/postgres/element_repo.go:43-62 | column by column: the name under the address, in the row that has it or in a new, unassigned and live one |
| Store.UpdateAssignmentSays | internal/storage/postgres/element_repo.go:134-147 | column by column: cluster, rule and status of the one row, if and only if it and what it names are there |
| Store.SoftDeleteSays | internal/storage/postgres/element_repo.go:151-163 | the one live row is marked and otherwise kept; a second delete does not find it |
| Store.RulesSay | internal/storage/postgres/rule_repo.go:66-75 | a rule can be deleted if and only if no element and no history row names it |
| Store.InsertHistorySays | internal/storage/postgres/history_repo.go:22-45 | the row is appended as it is, if and only if what it names is there |
| Store.RenameKeepsMatching | internal/domain/cluster.go:5-8 | the upsert by key is idempotent, separates different keys, and finds the same cluster again after a rename |
| Store.RediscoveryKeepsAssignment | internal/storage/postgres/element_repo.go:48-54 | rediscovery changes the name of the element with that address and nothing else |
| Assignment.AssignSays | internal/assignment/assignment.go:47-90 | an assignment succeeds if and only if its element and rule are there; then the element is in the cluster of the key, marked accordingly, with the matched rule, and one row records element, cluster, rule, key and trigger; a failed one changes no element and no history |
| Assignment.ClusterActionsSay | internal/storage/postgres/cluster_repo.go:94-126 | what renames and deletes do between the steps of assignments |
| Assignment.ElementActionsSay | internal/storage/postgres/element_repo.go:43-163 | what soft deletes and rediscoveries do between the steps of assignments |
| Assignment.RuleActionsSay | internal/storage/postgres/rule_repo.go:24-75 | what creating and deleting rules does between the steps of assignments |
| Assignment.StepKeepsInv | internal/assignment/assignment.go:52-90 | every atomic step of every request keeps all constraints and takes back no key, id, element or history row |
| Assignment.Placements | internal/assignment/assignment.go:58-71 | in every interleaving: lookup keys are unique, an element is marked assigned if and only if it has a cluster, and that cluster exists and carries exactly the key of the element's last update |
| Assignment.AuditTrail | migrations/0001_init.up.sql:77-91 | in every interleaving: history rows never change, and a cluster named in one is never deleted and keeps the row's key |
| Assignment.ClustersAreStable | internal/domain/cluster.go:5-8 | lookup keys are immutable, and the id of a deleted cluster never comes back |
| Assignment.OneRowPerAssignment | internal/assignment/assignment.go:73-87 | an assignment has succeeded if and only if it has written a history row, its own and only one, with its element, cluster, rule, key and trigger |
| Assignment.UninterruptedSteps | internal/assignment/assignment.go:52-90 | the three steps scheduled back to back are the sequential assignment, with the same result |
| Assignment.EmptyClustersMayStay | migrations/0001_init.up.sql:80 | a reachable state with a cluster that has no element at all and still cannot be deleted |
| Assignment.EmptyClusterDeletableIff | migrations/0001_init.up.sql:77-80 | in every reachable state, a cluster without elements can be deleted if and only if no assignment has ever succeeded in placing an element there |
| Redistribution.AssignElement | internal/assignment/assignment.go:52-90 | the service method: on success the element is in the cluster of the key its hostname evaluates to, with the matched rule, and the one new row records element, cluster, rule, key and trigger; on failure there is no row and the first error is returned |
| Redistribution.RedistributeBulk | internal/api/http/elements.go:243-249 | the tables and the success count after serving all targets in order |
| Redistribution.BulkCounts | internal/api/http/elements.go:243-249 | whatever fails, the count of successes is the number of new history rows, and only targets are touched |
| Redistribution.BulkServes | internal/api/http/elements.go:243-249 | without failures: all targets succeed and are placed as requested, no other element is touched, and history grows by one row per target, in order, each with its element, cluster, rule, key and trigger |
| Redistribution.BulkIdempotent | internal/api/http/elements.go:243-249 | a second redistribution changes nothing but the audit trail, which grows by one row per target again |
| Redistribution.BulkOrderIrrelevant | internal/api/http/elements.go:243-249 | any order of the targets gives every element the same key and puts the same elements together |
| Redistribution.RequestsServiceable | internal/api/http/elements.go:209-248 | what a redistribution asks for can be served, since its targets and rules are rows it has just read |
| Redistribution.RedistributionIsStable | internal/api/http/elements.go:200-250 | of elements and rules just read: every target succeeds under the key its hostname evaluates to, a second run changes only the audit trail, and any order or repetition of the targets gives the same keys |
| Targets.NextNumber | internal/discovery/targets.go:83-93 | on n bytes the next address is the successor modulo 256^n, for every n |
| Targets.NextIP | internal/discovery/targets.go:83-93 | the carry loop over a fresh copy computes that address and leaves its argument alone |
| Targets.ToUint32 | internal/discovery/targets.go:95-98 | the four shifted bytes are the number the address writes |
| Targets.ExpandRange | internal/discovery/targets.go:66-80 | returns exactly the consecutive addresses from start to end if there are at most 4096, and otherwise the right error |
| Targets.RangeSays | internal/discovery/targets.go:66-80 | a range of up to 4096 addresses is listed from start to end, each the next of the one before; 4097 are too many; and one that ends before it starts is reversed |
| Targets.ConsecutiveUnique | internal/discovery/targets.go:70-80 | first number and count determine such a list completely |
| Targets.ConsecutiveIncreases | internal/discovery/targets.go:70-80 | such a list is strictly increasing, so free of duplicates |
| Targets.MaskedNumber | internal/discovery/targets.go:42 | masking rounds an address down to a multiple of the block size, for every prefix length |
| Targets.InBlockIffBetween | internal/discovery/targets.go:42 | an address is in a block if and only if it lies between its lowest and highest address |
| Targets.ExpandCIDR | internal/discovery/targets.go:35-49 | the loop terminates for every prefix length and returns the block's addresses in order if there are at most 4096, wrap at the top of the address space included |
| Targets.BlockIsRange | internal/discovery/targets.go:35-81 | a block expands to the same list, or fails the same way, as the range from its lowest to its highest address |
| Targets.Ipv4BlockExpands | internal/discovery/targets.go:12-49 | an IPv4 block expands if and only if its prefix has at least 20 bits, and then to 2^(32-p) addresses |
| Targets.BlockSays | internal/discovery/targets.go:35-49 | a block is within the cap if and only if at most 12 bits are left to its addresses: the address alone, up to 4096, all in the block |
| Discovery.StepKeepsInv | internal/discovery/orchestrator.go:81-161 | every step of launcher, scans and cancellation keeps the whole invariant |
| Discovery.LaunchedArePrefix | internal/discovery/orchestrator.go:92-104 | in every reachable state: the launched targets are a prefix of the job's, launched = finished + in flight, and in flight is at most max(concurrency, 1) |
| Discovery.LaunchIffSlotFree | internal/discovery/orchestrator.go:92-103 | a waiting launch goes ahead if and only if fewer than max(concurrency, 1) slots are taken, and launches the next target |
| Discovery.AtMostOneLateLaunch | internal/discovery/orchestrator.go:95-103 | after a cancellation at most one scan is still launched, and only if it was already waiting for a slot |
| Discovery.CancelledNeverCompletes | internal/discovery/orchestrator.go:104-112 | a job whose context is cancelled any time before the final check never ends completed |
| Discovery.CompletedMeansAll | internal/discovery/orchestrator.go:77-112 | a completed job has launched a scan for every target, and all have finished |
| Discovery.EveryTargetAskedOnce | internal/discovery/orchestrator.go:95-116 | in the run of a completed job every target was launched and answered exactly once |
| Discovery.TerminalIffStored | internal/discovery/orchestrator.go:77-112 | the exact condition for a terminal status, and what each terminal status implies |
| Discovery.RunMayEndOpen | internal/discovery/orchestrator.go:82-90 | two runs that end without a terminal status |
| Discovery.RunsAreFinite | internal/discovery/orchestrator.go:77-113 | no run is longer than six steps per target and seven more, whatever is answered |
| Discovery.NeverStuck | internal/discovery/orchestrator.go:77-113 | until the launcher has returned, some step other than a cancellation is always enabled |
| Discovery.OneResultPerScan | internal/discovery/orchestrator.go:115-161 | a finished scan reports success, no response or an SNMP error as its target answered, under its host, in at most one row, missing only if it could not be stored; it has its element assigned exactly once if it has one, which only a success has |
| Discovery.HostsAreReported | internal/discovery/orchestrator.go:95-161 | when all results could be stored, the recorded hosts of a completed job are those of its targets, as a multiset |
| Orchestrator.ScanOne | internal/discovery/orchestrator.go:115-161 | the sequential code of a scan: the row it inserts and the tables it leaves, for every answer and storage failure |
| Orchestrator.ScanSays | internal/discovery/orchestrator.go:115-161 | what a scan reports for each answer, when it stores nothing, and that it touches no element of another host |
| Orchestrator.ScanPlaces | internal/discovery/orchestrator.go:138-160 | an undisturbed scan stores its element under host and name, places it in the cluster of the key its name evaluates to, and adds one audit row |
| Orchestrator.ScanAlone | internal/discovery/orchestrator.go:115-161 | the steps of a scan taken one after the other end with the same result as its code |
| Orchestrator.JobRun.Run | internal/discovery/orchestrator.go:81-113 | whatever moves between its statements, the launch loop and both waits terminate, and no error is returned exactly when the last write went through, with the job completed or cancelled |
| Orchestrator.JobRun.Await | internal/discovery/orchestrator.go:93-104 | waiting for a slot, or for all, ends |
| Placement.StepKeepsInv | internal/discovery/orchestrator.go:115-161 | every statement of every scan keeps the invariant of run and tables, and no assignment fails but by a failing statement |
| Placement.RunIsDiscoveryRun | internal/discovery/orchestrator.go:81-161 | over the tables, the run is still one of the discovery system, so that all its theorems apply |
| Placement.AssignedArePlaced | internal/assignment/assignment.go:52-90 | in every interleaving of the scans' statements, whatever failed: an element whose assignment came to its end is stored under its scan's host and name, in the cluster of that name's key |
| Placement.SmoothNeverStuck | internal/discovery/orchestrator.go:81-161 | until the run has returned, a step that does not fail can be taken |
| Placement.CompletedJobAudits | internal/assignment/assignment.go:73-87 | after a completed job without failures, history has grown by exactly one row per target that answered with a name, and elements with other addresses are untouched |
| Placement.AssignedIsAudited | internal/assignment/assignment.go:73-87 | its history row is one of the run's and records element, cluster, rule, key and trigger |
| Placement.CompletedJobPlaces | internal/discovery/orchestrator.go:77-161 | end to end: after a completed job without failures, in every interleaving, each target that answered with a name has its element under its host and name, with the matched rule, in the cluster of exactly the key the name evaluates to, and a history row of the run that records it |
| CancelRegistry.StepKeepsInv | internal/api/http/discovery.go:105-120 | every critical section, cancel call and step of a run keeps the registry and all jobs consistent |
| CancelRegistry.RegistryIsExact | internal/api/http/discovery.go:105-120 | the registry holds exactly the jobs between registration and removal, each with the function of its own context, and every job's run is one of the discovery system |
| CancelRegistry.LookUpTells | internal/api/http/discovery.go:214-226 | a request answers not found, not running, or goes on to cancel, exactly by the job's state at that moment and by whether the database could tell that the job does not exist |
| CancelRegistry.OnlyItsJob | internal/api/http/discovery.go:219-229 | cancelling a job leaves every other job and the registry unchanged |
| CancelRegistry.CancelledOnlyOnRequest | internal/api/http/discovery.go:102-120 | a job ends cancelled only if a request for it was answered as cancelling |
| CancelRegistry.CancellationIsHonoured | internal/api/http/discovery.go:228-229 | a request answered as cancelling before the job's final check is honoured in every continuation: the job does not complete, and launches at most the scan that was waiting for a slot |
| CancelRegistry.RegistryEmpties | internal/api/http/discovery.go:110-115 | when all background runs are over the registry is empty |
| DiscoveryHandler.Handler.Cancel | internal/api/http/discovery.go:214-229 | the reply is decided by the job's state at the lookup and a failing job lookup, whatever moves before the call; after a cancelling reply the job's context is cancelled |
| DiscoveryHandler.Handler.RunInBackground | internal/api/http/discovery.go:105-120 | ends with the run returned, the entry removed and the context released |

## Left out

- SNMP: the wire protocol and its decoding. What a target answers is a choice of identity, time-out or other error.
- Regular expressions, the `strings` functions and `replaceRegex`: uninterpreted functions. Of a compiled pattern only the shape is known: group names with the unnamed whole match first, and as many captures as names.
- The text of JSON: values start as trees whose objects have distinct names, and the decoding of the outer array of ops by `encoding/json` is taken as done.
- The text of addresses, ranges and CIDR blocks, and the dispatch of `ExpandTargets` on it: addresses start as bytes and a prefix length. IPv4-mapped IPv6 blocks are not covered. Masking and membership in a block are stated by arithmetic instead of bit operations.
- Go strings that are not valid UTF-8: a string is its sequence of runes. The template scanner works on bytes in the source; since braces are ASCII, the segments are the same.
- Unicode tables: letters, digits and white space are any disjoint classes that treat ASCII in the usual way.
- 32-bit platforms: `int` has 64 bits.
- Error messages: kinds of errors are kept with the data they depend on, but not positions or wording.
- SQL text, drivers, time stamps and UUIDs: each statement is one atomic update of the tables, and ids come from a counter. Infrastructure failures between the steps of an assignment appear as an assignment that never advances.
- Columns that nothing here depends on: descriptions of elements, attributes, uptime, the captures and warnings stored with a history row.
- `ListEnabledOrdered` is a predicate on its result, since priorities are unique; creating and updating rules other than through `Reorder` are not modelled beyond adding and removing ids.
- The choice of targets by `RedistributeBulk` (all live elements, or the ids of the request) and its hostnames are inputs.
- `hostOnly`: an uninterpreted function of the target.
- Locks, channels and memory: a critical section or a repository call is one step; a scan gives its slot back with its last step.
- HTTP handlers other than those named, request and response types, pagination, configuration, migrations as a process, and the web interface.
- `Redistribution.RedistributionIsStable` and the lemmas before it assume that nothing else writes between reading the targets and serving them.
- `Placement.CompletedJobPlaces` assumes that nothing but the job writes and that no host is listed twice; with other writers `Assignment.Placements` holds.
- The job lookup of `Cancel` and the lookup in the registry are one step; jobs are never deleted, so nothing can come between them that matters.
- `Handler.RunInBackground` takes the steps of the run itself and does not call `JobRun.Run`.
