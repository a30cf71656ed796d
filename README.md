# warrant-cli: a verified model of the command-line client's local logic

warrant-cli is a command-line client for the Warrant authorization service.
Almost every command parses its arguments and then sends one request to the
remote API. This project models the part that runs locally and deterministically:

- **The token grammar.** `type:id` objects and `type:id[#relation]` subjects, as
  `reader.ReadObjectArg` and `reader.ReadSubjectArg` split them. `object create`
  has its own looser `type[:id]` form. This is built on a model of Go's
  `strings.Split`, `strings.Join`, `strings.Count` and `strings.TrimSpace`.
- **The request builders.** `ReadCheckArgs` and `ReadWarrantArgs` turn tokens into
  a check or a warrant. The `remove` command uses the same shape for its
  three-argument form.
- **The decision rules.**
  - the eight type pairs `remove` can undo;
  - the `check` command's `--assert` handling and pass/fail verdict;
  - the one-line rendering of a check (`checkSpecAsString`).
- **The environment configuration.**
  - `GetConfigOrExit`'s validity test;
  - `initConfig`'s choice of credentials;
  - `env add`, `env remove` and `env switch`, as changes to a shared `Config`
    object. Each keeps the invariant that the active environment is a configured
    one;
  - the `env --list` listing: sorted, and with the active environment marked.
- **`import users`.** The argument validator, and the loop that turns CSV rows
  into user-creation requests while keeping three counters.

Remote calls are not modelled:

- A command's remote call is a datatype value naming the SDK call it selects.
- `warrant.Check`'s answer is an input to the verdict.
- `user.Create` is an oracle that answers success or failure per row.
- JSON decoding and encoding, and `reader.ParseObject`, are function parameters.
- An error that ends a command is an `Err(message)` or `Exited(message)` value.
  This covers both a returned Go `error` and `printer.PrintErrAndExit`.

Two behaviours of the code that its help texts do not spell out are modelled as
the code has them:

- `ReadObjectArg` accepts `"type:"` and `":"`. No emptiness check is made
  (internal/reader/reader.go:31-36).
- `ReadCheckArgs` ignores a context that fails to decode. It uses whatever the
  decoder produced instead of failing (internal/reader/reader.go:85-88).

The files:

- `wrappers.dfy`: `Option` and `Result`.
- `gostrings.dfy`: Go's `strings` functions.
- `gosort.dfy`: Go's string order and `sort.Strings`.
- `reader.dfy`: `internal/reader`.
- `object_cmd.dfy`, `remove_cmd.dfy`, `check_cmd.dfy`, `env_cmd.dfy` and
  `import_cmd.dfy`: one file per command source.
- `config.dfy`: `internal/config` with the checks of `internal/cmd/root.go`.

## Model

| member | source | states |
|---|---|---|
| GoStrings.Count | internal/reader/reader.go:31-32 | the separator count is at most the length, and is zero exactly when the separator does not occur |
| GoStrings.CountConcat | internal/reader/reader.go:31-32 | counting separators distributes over concatenation |
| GoStrings.Split | internal/reader/reader.go:31 | `strings.Split` yields one part more than there are separators; no part holds the separator; parts only use characters of the input; joining the parts gives the input back |
| GoStrings.SplitNoSeparator | internal/reader/reader.go:51 | a string without the separator splits into itself alone |
| GoStrings.SplitFirstSeparator | internal/reader/reader.go:51-55 | splitting stops at the first separator: the text before it is the first part, the rest splits independently |
| GoStrings.SplitJoin | internal/reader/reader.go:31-36 | Split undoes Join when no part holds the separator |
| GoStrings.JoinTwo | internal/reader/reader.go:31-36 | joining two parts is concatenation around the separator |
| GoStrings.IsSpaceLatin1 | internal/cmd/import.go:115-117 | `unicode.IsSpace`, the set `strings.TrimSpace` strips: in the Latin-1 range exactly `\t` to `\r`, the space, U+0085 and U+00A0 are white space |
| GoStrings.TrimSpaceBounds | internal/cmd/import.go:115-117 | `strings.TrimSpace` keeps an infix `s[lo..hi]`; everything before `lo` and from `hi` on is white space; the kept text neither starts nor ends with white space |
| GoStrings.TrimSpaceTrimmed | internal/cmd/import.go:115-117 | a string with no white space at either end is left unchanged |
| GoStrings.TrimSpace | internal/cmd/import.go:115-117 | `strings.TrimSpace` never lengthens a string; TrimSpaceBounds gives what it keeps |
| GoStrings.TrimSpaceUnique | internal/cmd/import.go:115-117 | any bounds with the TrimSpaceBounds properties delimit exactly what TrimSpace keeps |
| GoStrings.TrimSpacePadded | internal/cmd/import.go:115-117 | white space added at either end of a string is dropped as well |
| GoStrings.TrimSpaceIdempotent | internal/cmd/import.go:115-117 | trimming twice equals trimming once |
| GoSort.Less | internal/cmd/env.go:60 | Go's `<` on strings, compared character by character; a proper prefix comes before the longer string |
| GoSort.LessIrreflexive | internal/cmd/env.go:60 | no string is less than itself in Go's string order |
| GoSort.LessTransitive | internal/cmd/env.go:60 | Go's string order is transitive |
| GoSort.LessTotal | internal/cmd/env.go:60 | of two different strings, one is less than the other |
| GoSort.LessAsymmetric | internal/cmd/env.go:60 | two strings are never each less than the other |
| GoSort.LeTransitive | internal/cmd/env.go:60 | less-or-equal is transitive |
| GoSort.LeAntisymmetric | internal/cmd/env.go:60 | less-or-equal both ways means equal |
| GoSort.Insert | internal/cmd/env.go:60 | inserting adds exactly the one element to the multiset |
| GoSort.InsertSorted | internal/cmd/env.go:60 | inserting into a sorted sequence keeps it sorted |
| GoSort.SortStrings | internal/cmd/env.go:60 | `sort.Strings` returns a sorted permutation of its input |
| GoSort.SortedUnique | internal/cmd/env.go:56-60 | two sorted permutations of the same multiset are equal, so the listing does not depend on map iteration order |
| GoSort.Enumerate | internal/cmd/env.go:56-59 | the map-range loop visits every key exactly once |
| GoSort.AscendingKeysSpec | internal/cmd/env.go:56-60 | sorting the visited keys, in whatever order they were visited, gives every key once in strictly ascending order |
| Reader.ReadObjectArg | internal/reader/reader.go:30-37 | succeeds iff the token holds exactly one `:`, and then returns exactly the text before and after it (empty parts and `#` allowed); otherwise "invalid object" |
| Reader.ReadSubjectArg | internal/reader/reader.go:50-67 | succeeds iff there is at most one `#` and the text before it holds exactly one `:`; two `#` give "invalid subject"; a success returns the pieces the token is made of, with relation "" when there is no `#` |
| Reader.ObjectArgRoundTrip | internal/reader/reader.go:30-37 | a type and an id free of `:` are read back unchanged from `type:id` |
| Reader.SubjectArgRoundTrip | internal/reader/reader.go:50-67 | `t:i#r` reads back as `(t, i, r)` when t and i hold no `:` or `#` and r holds no `#` |
| Reader.SubjectArgNoRelation | internal/reader/reader.go:59-60 | `t:i` reads back with an empty relation |
| Reader.ObjectArgEmptyParts | internal/reader/reader.go:31-36 | `"type:"` gives `("type","")` and `":"` gives `("","")` |
| Reader.ObjectArgKeepsHash | internal/reader/reader.go:30-37 | `"role:a#b"` gives id `"a#b"` |
| Reader.ObjectArgRejects | internal/reader/reader.go:32-34 | `"role"` and `"a:b:c"` are rejected |
| Reader.SubjectArgColonInRelation | internal/reader/reader.go:51-64 | `"user:1#a:b"` gives relation `"a:b"` |
| Reader.SubjectArgTrailingHash | internal/reader/reader.go:62-63 | a trailing `#` gives an empty relation |
| Reader.SubjectArgWithoutHash | internal/reader/reader.go:59-60 | `"user:56"` gives relation `""` |
| Reader.SubjectArgTwoHashes | internal/reader/reader.go:52-53 | `"user:1#a#b"` is rejected |
| Reader.SubjectArgHasColon | internal/reader/reader.go:55-58 | every accepted subject token holds a `:` |
| Reader.SubjectArgNeedsColon | internal/reader/reader.go:55-58 | a subject token without `:` is rejected |
| Reader.FormatArgs | internal/reader/reader.go:72 | Go's `%s` rendering of the argument slice is bracketed, and `[]` for no arguments |
| Reader.FormatArgsSplitsBack | internal/reader/reader.go:72 | when no argument holds a space, splitting the inside of the brackets on spaces gives the arguments back |
| Reader.ReadCheckArgs | internal/reader/reader.go:70-105 | fewer than 3 or more than 4 tokens give "invalid check: [..]"; a subject error comes before an object error; success iff both tokens parse; the relation is copied verbatim; the context comes from the decoder only with a 4th token, and a decode failure is not an error |
| Reader.ReadWarrantArgs | internal/reader/reader.go:108-138 | the same token checks and error order; the policy is the 4th token verbatim, or "" |
| Reader.EndpointOrDefault | internal/reader/reader.go:165-167 | a blank endpoint answer selects "https://api.warrant.dev" and any other answer is kept |
| ObjectCmd.ReadCreateObjectArg | internal/cmd/object.go:59-67 | the `type[:id]` grammar succeeds iff there is at most one `:`; a bare type gets id ""; with one `:` it agrees with ReadObjectArg |
| ObjectCmd.CreateCommand | internal/cmd/object.go:55-82 | two or more colons are rejected before anything else; the meta is read only when a second argument is given (otherwise nil) and its error is returned; a success selects the create call with the parsed type and id |
| ObjectCmd.GetCommand | internal/cmd/object.go:102-111 | succeeds iff ReadObjectArg does, and then selects the get call for that object |
| ObjectCmd.UpdateCommand | internal/cmd/object.go:131-147 | the object is parsed before the meta; either error stops the command; a success selects the update with both |
| ObjectCmd.DeleteCommand | internal/cmd/object.go:167-176 | succeeds iff ReadObjectArg does, and then selects the delete call for that object |
| ObjectCmd.BareTypeOnlyForCreate | internal/cmd/object.go:59-67 | a bare type is accepted by `create` with id "" and rejected by `get`, `update` and `delete` |
| ObjectCmd.CreateGrammarExtendsStrict | internal/cmd/object.go:59-67 | the create grammar accepts exactly the strict grammar's tokens plus the bare types, and agrees with it where both accept |
| RemoveCmd.SelectRemoval | internal/cmd/remove.go:96-113 | exactly the eight listed type pairs select a call; the call removes that pair, passes the ids unchanged with the object's first, and uses relation "member" for user-from-tenant; any other pair is "Invalid remove request" |
| RemoveCmd.RemoveCommand | internal/cmd/remove.go:54-113 | with 3 arguments: deletes the warrant (subject, relation verbatim, object) with no subject relation and no policy. With 2 arguments: both tokens are parsed before the pair is looked up. A parse error of the first token comes first |
| RemoveCmd.RemovablePairsCount | internal/cmd/remove.go:96-111 | the table holds eight distinct pairs |
| RemoveCmd.SelectRemovalInjective | internal/cmd/remove.go:96-111 | different inputs never select the same call |
| CheckCmd.QuoteChar | internal/cmd/check.go:58-60 | strconv.Quote writes a character as itself exactly when it needs no escape, and otherwise as a backslash escape |
| CheckCmd.QuoteBody | internal/cmd/check.go:58-60 | the escaped text, each character as QuoteChar writes it, is never shorter than the input |
| CheckCmd.QuoteBodyUnchanged | internal/cmd/check.go:58-60 | escaping leaves a string unchanged exactly when none of its characters is a quote, a backslash or an ASCII control character |
| CheckCmd.Quote | internal/cmd/check.go:58-60 | `strconv.Quote` puts the escaped text between double quotes; the result is the input between plain quotes exactly when nothing needs an escape |
| CheckCmd.QuoteBodyConcat | internal/cmd/check.go:58-60 | quoting escapes each character independently |
| CheckCmd.QuoteEscapesQuote | internal/cmd/check.go:58-60 | `y"es` is quoted as `"y\"es"` |
| CheckCmd.ParseBool | internal/cmd/check.go:58-60 | `strconv.ParseBool` yields true for exactly its six true spellings, false for its six false ones, and otherwise the syntax error naming the input as strconv.Quote writes it |
| CheckCmd.ParseBoolMessagePlain | internal/cmd/check.go:58-60 | for an input needing no escape, the error shows it between plain double quotes |
| CheckCmd.FormatBool | internal/cmd/check.go:87-89 | the `%t` verb writes "true" exactly for true and "false" exactly for false |
| CheckCmd.ParseFormatBool | internal/cmd/check.go:58 | ParseBool reads back what `%t` prints |
| CheckCmd.PrepareCheck | internal/cmd/check.go:55-72 | a non-empty `--assert` that does not parse fails before the arguments are read; success iff the flag and ReadCheckArgs succeed; when the flag is empty or parses and ReadCheckArgs fails, its error is returned unchanged; assert mode iff the flag is non-empty; `Debug` and the warrant token are taken from their flags |
| CheckCmd.Decide | internal/cmd/check.go:84-99 | exit status 1 iff assert mode and the answer differs from the expected value; assert mode passes iff they agree and shows "assert <expected>"; plain mode shows the answer and exits 0 |
| CheckCmd.CheckSpecAsString | internal/cmd/check.go:105-124 | the check line, with ` '<json>'` appended exactly when the context is non-empty; an encoding error is returned |
| CheckCmd.CheckSpecIgnoresSubjectRelation | internal/cmd/check.go:105-114 | the subject's relation never affects the rendering |
| CheckCmd.CheckLineRoundTrip | internal/cmd/check.go:105-114 | rendering a check read from three tokens, with no `#` in the subject, gives the tokens back, separated by single spaces |
| CheckCmd.CheckLineSplitsBack | internal/cmd/check.go:107-114 | when no token holds a space, splitting the rendered line on spaces recovers the three tokens |
| Configuration.Config.ConfigError | internal/cmd/root.go:55-66 | no error iff the active name is non-empty and configured; the three checks run in order (empty name, no environments, unknown name) |
| Configuration.Config.ActiveCredentials | internal/cmd/root.go:51-52 | the active environment's entry, or Go's zero value when there is none |
| Configuration.InitConfig | internal/cmd/root.go:49-53 | the SDK's key and endpoint become the active environment's; for a valid configuration they are its configured entry |
| EnvCmd.AddEnv | internal/cmd/env.go:84-90 | after the config check, inserts or overwrites exactly the named entry and keeps the active name; keeps validity and the active-is-configured invariant |
| EnvCmd.RemoveEnv | internal/cmd/env.go:108-117 | refuses the active environment, then an unconfigured name, without changing anything; otherwise deletes exactly that key and nothing else; keeps validity and the invariant |
| EnvCmd.SwitchEnv | internal/cmd/env.go:135-141 | makes the name active iff it is configured, and otherwise exits unchanged; keeps the invariant |
| EnvCmd.CollectNames | internal/cmd/env.go:56-59 | the range loop collects every key exactly once |
| EnvCmd.MarkNames | internal/cmd/env.go:61-67 | the active name is printed with "* ", every other with two spaces, in the given order |
| EnvCmd.ShowEnvs | internal/cmd/env.go:47-73 | a config error is reported; without `--list`, or with exactly one environment, only the active name is printed; otherwise every configured name is listed in ascending order, marked |
| EnvCmd.ListingCoversNames | internal/cmd/env.go:56-67 | the listing has one line per configured name, each name appearing once |
| EnvCmd.ListingMarksActiveOnly | internal/cmd/env.go:61-67 | exactly the active environment's line carries the "* " mark |
| ImportCmd.ValidateImportArgs | internal/cmd/import.go:39-50 | accepts exactly no arguments, or two whose first is "users"; a wrong count is reported before a wrong entity type |
| ImportCmd.ColumnsUserFields | internal/cmd/import.go:113-119 | after the column loop has visited j columns, the id is column 0 trimmed once j > 0 and the email column 1 trimmed once j > 1, and both are empty before that |
| ImportCmd.RowUserColumns | internal/cmd/import.go:112-119 | the user a row describes has column 0 trimmed as its id and column 1 trimmed as its email; a missing column leaves its field empty, and later columns are ignored |
| ImportCmd.RowUserTrimmed | internal/cmd/import.go:115-117 | the user id and email neither start nor end with white space |
| ImportCmd.RowUserPaddedId | internal/cmd/import.go:115 | white space added at either end of the id column changes nothing |
| ImportCmd.RowUserPaddedEmail | internal/cmd/import.go:117 | white space added at either end of the email column changes nothing |
| ImportCmd.UserFromRow | internal/cmd/import.go:112-119 | column 0 trimmed is the id and column 1 trimmed the email; a missing column leaves its field empty, and later columns are ignored |
| ImportCmd.SubmittedRows | internal/cmd/import.go:110-119 | the header row is never submitted: request k comes from row k+1, one per data row |
| ImportCmd.AcceptedBound | internal/cmd/import.go:120-126 | no more users are created than rows are submitted |
| ImportCmd.ImportUsers | internal/cmd/import.go:105-133 | one request per row after the header, built from that row; a failure is counted and the loop goes on; created counts the accepted rows, and rows processed = created + failed = the number of data rows |

## Left out

- SDK and HTTP calls are not modelled. The call a command selects is a datatype value (`ObjectCall`, `RemoveCall`, `CheckPlan`). An error the call returns is not modelled.
- JSON is not modelled. `ReadObjectMetaArg`, the context decoding at internal/reader/reader.go:87 and `json.Marshal` at internal/cmd/check.go:116 are function parameters. Their values are string maps standing for JSON.
- `reader.ParseObject` is not part of this model. `RemoveCommand` takes it as a parameter.
- Console and file I/O are not modelled:
  - `PromptAndReadFromStdIn` and the prompts of `ReadEnvFromConsole`, which supply the name and entry `AddEnv` receives;
  - `config.LoadConfig`, `Config.Write` and its error (the in-memory change is modelled; the write that follows is not);
  - the CSV file reading;
  - the help text `import` prints without arguments.
- `time.Sleep` between import calls has no effect on the model.
- Printing and the success messages are not modelled, nor terminal colours, the bold style and `os.Exit`. The output is an `Err`/`Exited` message, a `Verdict` or the lines of the listing.
- GetConfigOrExit is not threaded through `object`, `check` and `import`. They call it first, and it is modelled once, as `Config.ConfigError`. The `env` commands do thread it through.
- cobra's argument-count checks (`RangeArgs`, `ExactArgs`) are preconditions of the command functions, since cobra enforces them before the command body runs. The custom validator of `import` is modelled.
- `config.Init` at the start of `remove` is not modelled.
- internal/cmd/objecttype.go is not modelled: its list loop pages until the remote service returns an empty cursor, and `apply` reads files and JSON.
- The thin commands that only pick an SDK call after reading tokens through `ReadWarrantArgs`, `ReadObjectArg` or a type switch are not modelled: list.go, delete.go, query.go, objects.go, warrants.go, assert.go and assign.go. One consequence is not captured: internal/cmd/warrants.go:104 and internal/cmd/assign.go:41 accept 2–3 arguments while `ReadWarrantArgs` needs 3–4.
- The unfinished internal/cmd/create.go and internal/cmd/update.go are not modelled, nor the early prototype under cmd/.
- The `strings` and `sort` models work on Unicode code points. Go works on UTF-8 bytes. For well-formed text, the separators (`:`, `#`, space), the white-space set and the order agree.
- EnvCmd.SwitchEnv: an environment named "" can be configured through `env add` and switched to. After that, GetConfigOrExit fails, so switching keeps validity only for a non-empty name. The active-is-configured invariant is kept in all cases.
- CheckCmd.QuoteChar: escapes as strconv.Quote does for ASCII text only. Other characters are written as themselves, whereas Go writes the ones Unicode does not class as printable (a C1 control such as U+0085, for example) as `\u`, `\U` or `\x` escapes. Invalid UTF-8 cannot occur in a sequence of code points.
- CheckCmd.QuoteBody: inherits QuoteChar's ASCII-only escaping.
- CheckCmd.QuoteBodyUnchanged: "needs an escape" means an ASCII escape, so a string holding U+0085 comes out unchanged where Go escapes it.
- CheckCmd.Quote: inherits QuoteChar's ASCII-only escaping.
- CheckCmd.ParseBool: the input in the error message is quoted by Quote, so it inherits QuoteChar's ASCII-only escaping.
- CheckCmd.ParseBoolMessagePlain: "needs no escape" means no ASCII escape, so an input holding U+0085 is shown between plain quotes where Go escapes it.
- ImportCmd.ImportUsers: `user.Create` is an oracle indexed by row number and request. Whether the service remembers earlier requests is not modelled.
