# Verification of DeepSeek Harness Router

The router runs several harness instances side by side: it keeps a registry of them, gives
each its own port and state root, starts and stops them, and serves all of them through one
relay that mounts each under `/i/<name>`. This project models the parts of it that carry
invariants over unbounded inputs or runs, and proves those invariants.

| files | what they model |
|---|---|
| `Rewriter`, `RewriterProperties` | the two scanners that put the instance prefix into a page's URLs |
| `Routing`, `Headers` | routing under the prefix and back, redirects, the gateway's choice of instance, hop-by-hop headers |
| `Calendar` | the timestamp arithmetic, against a calendar that counts years and months one by one |
| `Registry`, `Ports`, `RegistryRuns` | the registry document, its edits, port allocation, and every document the edits can reach |
| `Protocol`, `ProtocolProperties`, `ProtocolHistory` | the locked update of the registry file by any number of processes, with crashes; what it keeps, and the registry document by document |
| `Terminal`, `Table`, `Alignment`, `Printed` | escapes, table rendering, whether columns line up, and what is printed line by line |
| `Fitting`, `FittingOrder`, `FittingProperties`, `FittingFailures`, `FittedPrinted` | the sharing of the terminal's width, in what order and proportion, exactly when the printed table stays within it, tables that do not, and what a fitted table shows of each cell |
| `ProcessFamily` | the bounded search for a process's descendants |
| `Links`, `Provisioning` | state roots, settings and shared credentials over a file system with links |
| `LexicalPath` | the refusing and the clamping collapse of `.` and `..` |
| `Lifecycle`, `LifecycleRuns` | the supervisor's record of each instance, over all runs |
| `Text`, `Numbers` | the string operations and bounded arithmetic the others use |

Code that loops or updates fields is a method or a class here, proved against a function of its
inputs or its old state; the properties are lemmas about that function. `dafny verify
dfyconfig.toml` checks everything.

## Where the code does not do what it says

Each of these is stated where it can be checked: as an exact condition, as an instance that fails, or both.

- `router edit` (`crates/router-cli/src/main.rs:1853-1880`) fills the fields that were not named
  from a snapshot taken before the lock. It does what was asked exactly when those fields have
  not changed since (`EditAsRequestedIff`); of two concurrent edits of different fields one is
  taken back (`ConcurrentEditsLoseOne`).
- `router init` (`crates/router-cli/src/main.rs:461-504`) looks for a registry and saves without the
  lock. An existing registry is never overwritten (`InitNeverWrites`), and every run keeps every
  update exactly if the registry is there at the start (`KeepsAllIff`): if it is not, an update can
  come in between and be thrown away after it reported success (`InitCanLoseAnUpdate`). What the
  registry holds is stated for every run (`RegistryIsGrown`): the document it grew from, which after
  such a rename is the empty one, with the updates since; an update that had read the registry
  before the rename and is renamed after it brings the earlier ones back.
- `reattach_prefix` (`crates/router-relay/src/proxy.rs:738`) tests the prefix as text where the page
  rewrite tests it on a segment boundary. A root-relative redirect stays with its instance exactly
  unless it begins with the prefix as text while its path does not lie under it
  (`RedirectStaysIff`, `ReattachAgreesIff`): one to `/i/maintenance` from the instance `main` leaves
  it (`ReattachMissesTextPrefix`).
- `filter_headers` (`crates/router-relay/src/proxy.rs:233`) says that the names listed by
  `Connection` are removed, and reads only the first such line (`NamedFieldsRemovedIff`,
  `SecondConnectionLineIgnored`).
- `table_fitted` (`crates/router-core/src/term.rs:652`) calls its width guarantee absolute. Of what is
  printed it holds exactly when there are no rows or `FitsTerminal` does (`NeverWiderIff`): the
  headers of the flexible columns, the other columns and the gaps fit, and either no column with a
  cap of 0 shows more than its header and no column without a header is left with nothing, or there
  is space for everything at once. For callers that give every flexible column a positive cap and a
  header only the first part remains (`CallersFitIff`). A cap of 0, an empty header and a column
  named twice each overflow (`ZeroCapOverflows`, `EmptyHeaderOverflows`, `RepeatedColumnOverflows`).
- Tables are meant to be aligned with colour too (`crates/router-core/src/term.rs:825-829`), but cells
  are padded by their character count, escapes included (`crates/router-core/src/term.rs:816`). A
  header is above a value exactly if what the header cells before it show and what the row's cells
  before it show add up to the same (`HeaderAboveValueIff`). Over values without escapes that is
  always so in a plain table, and in a coloured one exactly if every column before it is as wide as
  its header's text (`HeaderAbovePlainValuesIff`). Over painted values it can fail even then
  (`PaintedRowMisaligned`).
- `set_credential_sharing` (`crates/router-dsh/src/provisioning.rs:303-309`) answers `Shared` for a
  state root that does not exist, where nothing is shared yet (`SharedAnswerIff`). Turning sharing
  off leaves the file shared exactly if the host path is itself a way to the instance's file
  (`TurnedOffIff`).
- `provision` reports whether the host's credentials are in use, and follows links when it creates the
  private file (`crates/router-dsh/src/provisioning.rs:93-156`). A report that they are not shared is
  wrong exactly if an existing file leads to the host's although sharing was not asked for, or the
  instance's entry dangles where the host path does (`ProvisionReportTrue`, `ProvisionReportExact`);
  in the second case the file that is created is the host's own (`DanglingLinkCreatesHostFile`).
- `descendants_of` says it returns an empty list for a process that is gone
  (`crates/router-dsh/src/process.rs:354-355`); the code always returns the process itself
  (`DescendantsOf`).
- No operation of the supervisor stores a process handle in a slot (`crates/router-dsh/src/multi.rs:314`
  is the only assignment besides the one in `stop`), so `stop` never finds a process to end
  (`AlwaysSane`).

## Model

| member | source | states |
|---|---|---|
| Rewriter.RewriteAttributes | crates/router-relay/src/proxy.rs:628-667 | the position-driven attribute scanner prefixes exactly the quote-delimited pieces that the piecewise specification tracks, for every document and prefix |
| Rewriter.RewriteBootstrapUrls | crates/router-relay/src/proxy.rs:684-713 | the same for the scanner of `"url":"` fields, whose key overlaps itself in one quote |
| Rewriter.RewriteRootAbsoluteUrls | crates/router-relay/src/proxy.rs:619-625 | the whole rewrite is attributes then bootstrap; with an empty prefix the early return makes no difference |
| Rewriter.AttributeFlagsMeaning | crates/router-relay/src/proxy.rs:628-667 | a piece is a tracked attribute value iff it is terminated, follows a tracked name's quote, and that name was not itself inside a value |
| Rewriter.KeyFlagsMeaning | crates/router-relay/src/proxy.rs:684-713 | a piece is a tracked field value iff it is terminated, the two pieces before it spell the key, and none of the key's quotes was used up by an earlier value |
| Rewriter.EarliestAttribute | crates/router-relay/src/proxy.rs:633-639 | what is found is an occurrence of one of the three names |
| Rewriter.EarliestIsFirst | crates/router-relay/src/proxy.rs:633-639 | no occurrence of any of the names comes before the one found |
| RewriterProperties.PassesCommute | crates/router-relay/src/proxy.rs:619-713 | the two passes can be exchanged, for every document and quote-free prefix |
| RewriterProperties.EachPassIdempotent | crates/router-relay/src/proxy.rs:628-713 | each scanner changes nothing the second time |
| RewriterProperties.RewriteIdempotent | crates/router-relay/src/proxy.rs:600-625 | a page passed through the relay twice is the page passed through once |
| RewriterProperties.BootstrapKeepsFixedPoint | crates/router-relay/src/proxy.rs:619-713 | the bootstrap pass leaves a fixed point of the attribute pass fixed |
| RewriterProperties.TrackedOnce | crates/router-relay/src/proxy.rs:628-713 | no value is tracked by both scanners, so none is prefixed twice |
| RewriterProperties.RewriteOnlyInserts | crates/router-relay/src/proxy.rs:628-721 | the output is the input with the prefix inserted at the start of certain values: erasing it there gives the input back, and the length grows by the prefix length times their number |
| RewriterProperties.RewriteChangesIff | crates/router-relay/src/proxy.rs:600-721 | a piece of the page changes iff it is a tracked value that starts with a single slash and is neither the prefix nor below it |
| RewriterProperties.RewrittenLiesUnderPrefix | crates/router-relay/src/proxy.rs:716-721 | after the rewrite the tracked values are where they were, and each that starts with a single slash lies under the prefix on a segment boundary |
| Routing.Resolve | crates/router-relay/src/proxy.rs:110-133 | the longest matching prefix wins, the first of equals; without a match the request goes to the default upstream unchanged |
| Routing.ResolutionUnique | crates/router-relay/src/proxy.rs:110-133 | that specification determines the result |
| Routing.LongestWins | crates/router-relay/src/proxy.rs:110-133 | no matching prefix is longer than the one that is stripped, the first of equal ones decides, and what is left of the path follows it |
| Routing.NoMatch | crates/router-relay/src/proxy.rs:130-131 | without a match the default upstream gets the path as it is |
| Routing.AuthorityRoundTrip | crates/router-relay/src/proxy.rs:178-198 | host and port are recovered from an upstream for every host and port, however many slashes follow, and a number beyond 65535 is refused |
| Routing.SchemeRefused | crates/router-relay/src/proxy.rs:179-184 | an upstream that is not `http://` is refused |
| Routing.PortRefused | crates/router-relay/src/proxy.rs:187-194 | and so is a port with anything but digits in it |
| Routing.AuthorityDefaultPort | crates/router-relay/src/proxy.rs:178-198 | an upstream without a port is on port 80 |
| Routing.UpstreamAuthority | crates/router-relay/src/proxy.rs:178-198 | host and port are recovered from the upstream text of every port |
| Routing.PrefixNamesOne | crates/router-relay/src/proxy.rs:143-151 | a path under `/i/<b>` matches the prefix `/i/<a>` iff a is b, so no name captures another's requests |
| Routing.InstancePathResolves | crates/router-cli/src/control.rs:55-64 | in every consistent registry and any route order, `/i/<name><path>` goes to that instance's own port with the original path, or `/` |
| Routing.PrefixedTargetComesBack | crates/router-cli/src/control.rs:134-143 | resolving undoes `prefix_request`: every target put under an instance prefix is forwarded to that instance's own port as it was, query included |
| Routing.PageUrlComesBack | crates/router-relay/src/proxy.rs:600-721 | every URL the rewrite changed in a page, requested as it now stands, reaches the page's own instance under its original address |
| Routing.RedirectStaysIff | crates/router-relay/src/proxy.rs:736-749 | a root-relative redirect, as it is sent on, resolves to its own instance exactly unless it begins with the prefix as text while its path does not lie under it; one that is changed leads back to where the harness meant it to go |
| Routing.ReattachAgreesIff | crates/router-relay/src/proxy.rs:716-749 | redirects are treated like page URLs exactly unless they begin with the prefix as text but not on a segment boundary |
| Routing.ReattachMissesTextPrefix | crates/router-relay/src/proxy.rs:738 | one redirect that is not |
| Routing.MarkedIff | crates/router-cli/src/control.rs:231-238 | a part of the Cookie header is read as a marker iff it is `dsr-open-<name>=<value>` with neither empty, white space around it aside |
| Routing.CookieKeyWhole | crates/router-cli/src/control.rs:249-253 | the key of a marker holds no `=`, whatever the name |
| Routing.MarkersRoundTrip | crates/router-cli/src/control.rs:223-253 | the open markers of any instances among any other cookies parse back to their names, in order |
| Routing.RefererDecidesIff | crates/router-cli/src/control.rs:178-213 | a Referer decides for a served name, whatever the cookies, iff its path is `/i/<name>` or goes on below it |
| Routing.MarkerDecidesIff | crates/router-cli/src/control.rs:178-202 | a request with no Referer, or with any that names no served instance, is routed iff exactly one marker is present, among whatever other cookies, and its instance is served |
| Routing.UrlNamesIff | crates/router-cli/src/control.rs:205-213 | the name read from a URL is what stands below `/i/` in its path, up to the next slash, and nothing if that is empty |
| Routing.EveryUrl | crates/router-cli/src/control.rs:205-213 | every text is covered: it splits into a scheme, an authority and a path in that sense |
| Headers.FilterHeaders | crates/router-relay/src/proxy.rs:231-251 | the fields that pass are kept in order, each occurrence |
| Headers.PassedMeaning | crates/router-relay/src/proxy.rs:231-251 | a field passes iff it is neither hop-by-hop nor named by the first `Connection` line |
| Headers.PassedIff | crates/router-relay/src/proxy.rs:31-251 | a field is passed on iff it is none of the eight hop-by-hop fields and not listed, in any case, by the first `Connection` line |
| Headers.FilterIdempotent | crates/router-relay/src/proxy.rs:231-251 | a second hop filters nothing more |
| Headers.NamedFieldsRemovedIff | crates/router-relay/src/proxy.rs:227-242 | the rule of RFC 9110 section 7.6.1 is met exactly when later `Connection` lines add nothing |
| Headers.SecondConnectionLineIgnored | crates/router-relay/src/proxy.rs:233 | a field only the second line names is forwarded |
| Calendar.NothingClamped | crates/router-core/src/lib.rs:52-68 | for every u64 the clamps do nothing, and no value on the way to the date leaves i64 |
| Calendar.YearOfEraExact | crates/router-core/src/lib.rs:62 | the year-of-era formula gives the year the day falls in |
| Calendar.CivilCorrect | crates/router-core/src/lib.rs:51-71 | for every u64 the fields are a real date and time of day, and the naive leap-year calendar counts back exactly the given seconds |
| Calendar.CivilMonotone | crates/router-core/src/lib.rs:51-71 | later instants have lexicographically later fields |
| Calendar.IsoLength | crates/router-core/src/lib.rs:70 | the text has the 20 characters of RFC 3339 exactly until the year 9999 ends |
| Calendar.IsoReadsBack | crates/router-core/src/lib.rs:70 | until then the text is `YYYY-MM-DDThh:mm:ssZ` and its digits read back as the fields |
| Calendar.IsoOrder | crates/router-core/src/lib.rs:70 | until then, sorting the texts sorts the instants |
| Ports.Allocate | crates/router-core/src/ports.rs:112-157 | the probing loop computes the specified allocation, without overflowing u16 |
| Ports.FirstUsable | crates/router-core/src/ports.rs:134-141 | the least usable port of the window, or none if it holds none |
| Ports.AllocationMeaning | crates/router-core/src/ports.rs:112-157 | never 3080; a usable preference is kept, otherwise the least usable of 1000 ports from the base on, but not below 3081; failure exactly when 3080 was asked for or nothing is usable; reassignment is reported truthfully |
| Registry.ValidNameChars | crates/router-core/src/registry.rs:191-220 | a valid name holds none of the characters that routes, cookies, pages and paths are split on |
| Registry.ValidNameIff | crates/router-core/src/registry.rs:164-220 | a name is accepted iff it is 1 to 64 ASCII letters, digits, dashes, underscores and dots, starts with a letter or digit, does not end in a dot, and is no device name before its first dot |
| Registry.ConsistentIff | crates/router-core/src/registry.rs:471-529 | a document is accepted iff it is of version 1 and has none of the five problems |
| Registry.Validate | crates/router-core/src/registry.rs:471-529 | the one-pass check accepts exactly the consistent documents, and a problem it reports is there |
| Registry.RegistryObject.InsertEntry | crates/router-core/src/registry.rs:564-579 | inserts iff the name is valid and new; otherwise nothing changes |
| Registry.RegistryObject.RemoveEntry | crates/router-core/src/registry.rs:587-589 | removes that entry and no other, and returns it |
| Registry.RegistryObject.Run | crates/router-cli/src/main.rs:586-635 | the edit of a command either yields the specified document or fails and leaves it alone |
| Registry.RefusedIff | crates/router-cli/src/main.rs:586-635 | an add is refused iff the name is invalid or taken, the workspace is in use, or no port of the window is free and unclaimed; a remove or edit iff the name is unknown |
| Registry.EditTouchesOne | crates/router-cli/src/main.rs:586-635 | an edit changes the entry it names and nothing else; an added entry holds what was asked for and the first port that is free and nobody else's |
| Registry.RemoveUndoesAdd | crates/router-cli/src/main.rs:1582-1587 | removing what was just added gives the registry back |
| Registry.EditsStayConsistent | crates/router-cli/src/main.rs:586-635 | no edit of a consistent document fails the validation in `save` |
| Registry.EditsStayHealthy | crates/router-core/src/registry.rs:471-579 | nor does it use a port below 3081 or change the base port |
| Registry.ReachableRegistries | crates/router-core/src/registry.rs:471-579 | every registry reached from the empty one has valid names, distinct ports from 3081 up and distinct workspaces |
| Registry.EditAsRequestedIff | crates/router-cli/src/main.rs:1853-1880 | an edit changes the named fields and nothing else exactly when the others have not changed since the snapshot |
| Registry.ConcurrentEditsLoseOne | crates/router-cli/src/main.rs:1853-1880 | two edits of different fields where the second takes back the first |
| Registry.StateRootsDisjoint | crates/router-core/src/registry.rs:350-352 | two instances share no path below their state roots |
| Registry.StateRootIs | crates/router-core/src/registry.rs:350-352 | a state root is `instances/<name>/dsh` below the home |
| Protocol.Invariant | crates/router-core/src/registry.rs:259-463 | what every step of every interleaving keeps, with crashes, timeouts, I/O failures and removal of dead owners' locks |
| ProtocolProperties.MutualExclusion | crates/router-core/src/registry.rs:259-320 | at most one live update is between taking and dropping the lock |
| ProtocolProperties.ReadersSeeWholeDocuments | crates/router-core/src/registry.rs:391-463 | at any moment the file is what it was at the start or one whole valid document |
| ProtocolProperties.TempsNeverShared | crates/router-core/src/registry.rs:131-142 | no two unfinished saves share a temporary file, `init` outside the lock included |
| ProtocolProperties.RegistryIsGrown | crates/router-cli/src/main.rs:379-504 | in every run, `init` included, the registry is the document it grew from with every update since, in rename order |
| ProtocolProperties.NoUpdateLost | crates/router-cli/src/main.rs:379-404 | in every run that starts with a registry, whatever `init` calls are in it, and in every run without `init`, the registry is the initial document with every committed update applied in rename order |
| ProtocolProperties.KeepsAllIff | crates/router-cli/src/main.rs:452-504 | every run keeps every update iff the registry is there at the start |
| ProtocolProperties.InitNeverWrites | crates/router-cli/src/main.rs:461-499 | an `init` that has not looked before the registry is there never gets as far as a temporary file or a rename, in any continuation of any run |
| ProtocolProperties.ExactlyOnce | crates/router-cli/src/main.rs:379-404 | an update that reported success is in that order exactly once, one that reported failure never |
| ProtocolProperties.InitCanLoseAnUpdate | crates/router-cli/src/main.rs:452-504 | a run in which `init` throws away an update that reported success |
| ProtocolHistory.UnreadableKept | crates/router-core/src/registry.rs:364-387 | a registry that holds no valid document is left as it is by every run, and no update or `init` on it reports success |
| ProtocolHistory.RegistryHistory | crates/router-cli/src/main.rs:379-404 | with a registry at the start or no `init`, the file goes through a history: it starts from the document the file stood for, a missing or blank one for the empty document, each update in rename order turns the last document into the next, all are valid, and the last is what is there |
| ProtocolHistory.FirstUpdateIff | crates/router-cli/src/main.rs:379-404 | an update can be the first to succeed, leaving a given document, iff the registry can be read and its edit makes that document, a valid one, of what it stands for |
| ProtocolHistory.LockGivenBack | crates/router-core/src/registry.rs:315-320 | as long as removing it does not fail, the lock file is there only for a call inside the lock or one that died there |
| ProtocolHistory.InitLooks | crates/router-cli/src/main.rs:475-499 | an `init` that finds a registry answers whether it can be read and touches nothing |
| ProtocolHistory.InitSucceeds | crates/router-cli/src/main.rs:461-504 | in every run, after an `init` that reported success the registry is there and can be read |
| RegistryRuns.StoredRegistriesHealthy | crates/router-cli/src/main.rs:379-404 | in every run of the commands and `init` from no registry, what is in the file is consistent and uses no port below 3081 |
| RegistryRuns.SaveNeverInvalid | crates/router-core/src/registry.rs:400-401 | the validation in `save` never refuses what `load` and a command produced |
| Terminal.VisibleWidth | crates/router-core/src/term.rs:830-845 | counts the characters that stripping escapes leaves |
| Terminal.StripAnsi | crates/router-core/src/term.rs:851-866 | removes exactly the escapes, an unclosed one to the end |
| Terminal.PlainHasNoEscape | crates/router-core/src/term.rs:851-866 | no escape survives stripping |
| Terminal.PlainIdentity | crates/router-core/src/term.rs:851-866 | text without escapes is left as it is |
| Terminal.EscapeHides | crates/router-core/src/term.rs:851-866 | an escape hides everything to its `m`, or to the end |
| Terminal.VisibleConcat | crates/router-core/src/term.rs:830-845 | joining texts never shows more than the parts, even when an escape is left open |
| Terminal.VisiblePad | crates/router-core/src/term.rs:390-397 | padding never shows more than the width the text fits in |
| Terminal.VisibleTruncate | crates/router-core/src/term.rs:401-412 | a text that fits is left alone, a shortened one shows exactly the width it was cut to |
| Table.MeasureWidths | crates/router-core/src/term.rs:591-602 | each column's width is the largest need among its header and cells |
| Table.ColumnWidthBounds | crates/router-core/src/term.rs:591-602 | that need bounds the header and every cell, and one of them attains it |
| Table.AppendRows | crates/router-core/src/term.rs:624-631 | the rows follow in order, each on its line |
| Table.TableCapped | crates/router-core/src/term.rs:559-634 | the loops render the specified table: rows cut first, then measured |
| Table.CappedColumnWidth | crates/router-core/src/term.rs:569-602 | a column capped at or above its header is as wide as the smaller of need and cap; a cap of 0 is none |
| Table.RuleLineWidth | crates/router-core/src/term.rs:355-357 | the rule shows exactly the width it is given |
| Table.TableAsWideAsRule | crates/router-core/src/term.rs:559-634 | no line of a table, header or row, coloured or not, is wider than its rule |
| Table.RuleIsALine | crates/router-core/src/term.rs:619-633 | a rule that shows anything is one of the printed lines |
| Table.PrintedWithinIff | crates/router-core/src/term.rs:559-634 | what is printed is within a width iff there are no rows or the columns and gaps are |
| Alignment.FrontShows | crates/router-core/src/term.rs:808-823 | what is in front of a cell shows exactly what the cells before it show and their gaps |
| Alignment.ShownAt | crates/router-core/src/term.rs:808-823 | what is seen of a row has each cell, whole, in that column |
| Alignment.BetweenCells | crates/router-core/src/term.rs:808-823 | between a cell and the next there is nothing but blanks |
| Alignment.RuleEndsWithColumns | crates/router-core/src/term.rs:619-621 | the rule is as wide as to where the last column ends |
| Alignment.ColumnIff | crates/router-core/src/term.rs:808-823 | a cell is never shown past the column it belongs in, and exactly there iff every cell before it fills its width or hides nothing |
| Alignment.HeaderAboveValueIff | crates/router-core/src/term.rs:606-631 | in any table, a header is above a value iff what is shown before them adds up to the same, for any row whose escapes are closed and any other headers, empty ones included |
| Alignment.HeadShows | crates/router-core/src/term.rs:606-617 | what a header cell adds: its width in a plain table, the width less eight but at least its text in a coloured one |
| Alignment.ValuesAlign | crates/router-core/src/term.rs:624-631 | values without escapes are shown in their columns in every row |
| Alignment.HeaderAlignedIff | crates/router-core/src/term.rs:606-617 | a header is shown in the column it belongs in by plain tables, and by coloured ones iff every column before it is as wide as its header's text |
| Alignment.HeaderAbovePlainValuesIff | crates/router-core/src/term.rs:606-631 | the same condition decides whether a header is above values without escapes |
| Alignment.PaintedRowMisaligned | crates/router-cli/src/main.rs:1203-1214 | a row with a painted name where no value is wider than its header and the next header is two columns off |
| Printed.PrintedLines | crates/router-core/src/term.rs:559-634 | what is printed is the header line, the rule and a line for every row, in order and nothing else, but for empty lines at the end |
| Printed.HeadPrinted | crates/router-core/src/term.rs:604-622 | the first line shows every header whole in its column, whatever the caps, and the second is the rule |
| Printed.CellPrinted | crates/router-core/src/term.rs:569-634 | each row is on its own line below the rule, and every tidy cell of it stands there in its column: whole if its cap lets it through, otherwise its start and an ellipsis |
| Fitting.ReserveBudget | crates/router-core/src/term.rs:712-720 | the budget is what is left of the terminal after gaps, fixed columns and flexible headers |
| Fitting.ShareOut | crates/router-core/src/term.rs:742-757 | the loop gives out the specified shares, for any list of contenders |
| Fitting.Pass | crates/router-core/src/term.rs:768-779 | one pass leaves the specified caps and rest, and tells whether anyone took a character |
| Fitting.HandBack | crates/router-core/src/term.rs:763-783 | the hand-back loop ends, with the specified grants |
| Fitting.AddFloors | crates/router-core/src/term.rs:785-789 | the headers are added once for every contender |
| Fitting.FixOthers | crates/router-core/src/term.rs:791-800 | the columns that are not flexible are capped at their need |
| Fitting.FitCaps | crates/router-core/src/term.rs:682-800 | the loops compute the specified caps, for any choice of flexible columns |
| Fitting.TableFitted | crates/router-core/src/term.rs:661-802 | an unknown width or a table that fits is rendered uncapped, any other with fitted caps |
| FittingOrder.RankedSorted | crates/router-core/src/term.rs:722-733 | contenders are ranked by falling want, none lost or added, equal ones in the order in which they were named |
| FittingOrder.ShareIsProportional | crates/router-core/src/term.rs:741-757 | a share is to the budget, rounded down, as the contender's want, but no less than the even part, is to the sum of those; the even part is the smallest number that every contender could have of the demand |
| FittingOrder.SharesFollowWants | crates/router-core/src/term.rs:741-757 | a larger want never gets a smaller share, and wants up to the even part get the same |
| FittingOrder.GrantsExact | crates/router-core/src/term.rs:741-783 | every contender is granted its share as far as it can use it, then one character a round while it can use it, and one more if it comes before the cut in the last round |
| FittingProperties.HandedMeaning | crates/router-core/src/term.rs:763-783 | the hand-back ends with nothing left or nobody with room, every contender having gained the same number of rounds up to its room |
| FittingProperties.CapsAllot | crates/router-core/src/term.rs:682-800 | unless a column is named twice, each contender gets its header, its floored share and its part of the hand-back, and every other column its need or nothing |
| FittingProperties.SharesWithinBudget | crates/router-core/src/term.rs:742-757 | the floored shares never exceed the budget |
| FittingProperties.GrantedTotal | crates/router-core/src/term.rs:742-783 | the grants come to exactly the budget or all the room there is, whichever is less |
| FittingProperties.EmptyIff | crates/router-core/src/term.rs:763-783 | a contender with room is granted nothing iff its share is nothing and what is left goes no further than the hungry ones before it |
| FittingProperties.RenderedTotal | crates/router-core/src/term.rs:682-802 | the rendered table is as wide as its sure width, the grants, and what final caps of 0 let through |
| FittingProperties.NeverWiderIff | crates/router-core/src/term.rs:652-802 | what is printed is within the terminal iff there are no rows or `FitsTerminal` holds, which can be worked out before the call; for every choice of flexible columns that names none twice |
| FittingProperties.CallersFitIff | crates/router-core/src/term.rs:652-802 | with positive caps and headers that condition is that the sure width fits |
| FittingProperties.NothingWasted | crates/router-core/src/term.rs:759-783 | either the terminal is taken up or every contender shows all it asked for |
| FittingProperties.FillsTheTerminal | crates/router-core/src/term.rs:759-802 | if the natural table does not fit and the caps cover their columns' needs, the printed rule is exactly the terminal's width |
| FittingProperties.ZeroCapIsNoCap | crates/router-core/src/term.rs:725-732 | a flexible column with a cap of 0 is rendered at its natural width |
| FittedPrinted.FittedCellPrinted | crates/router-core/src/term.rs:661-802 | every row of a fitted table is printed, each tidy cell in its column, whole unless the table does not fit and the column is flexible, and never cut below the width of the header |
| FittedPrinted.FittedHeadPrinted | crates/router-core/src/term.rs:661-802 | the headers of a fitted table are printed whole in their columns |
| FittingFailures.ZeroCapOverflows | crates/router-core/src/term.rs:725-732 | such a column prints a line wider than a terminal its header fits |
| FittingFailures.StarvedOverflows | crates/router-core/src/term.rs:785-789 | so does any table with a column without a header that goes empty |
| FittingFailures.EmptyHeaderOverflows | crates/router-core/src/term.rs:785-789 | a table of two columns where that happens |
| FittingFailures.RepeatedColumnOverflows | crates/router-core/src/term.rs:785-789 | a column named twice has its header added twice and overflows |
| ProcessFamily.Query | crates/router-dsh/src/process.rs:365-391 | one level's answer is the children of the frontier |
| ProcessFamily.DescendantsOf | crates/router-dsh/src/process.rs:357-403 | returns each process reachable by at most the given number of child steps once, the recorded one first, whatever cycles the table has |
| ProcessFamily.LevelIsReachable | crates/router-dsh/src/process.rs:357-403 | the level-by-level sets are the processes with a path of at most that many steps |
| ProcessFamily.LevelStops | crates/router-dsh/src/process.rs:362-364 | stopping at an empty frontier loses nothing |
| ProcessFamily.PidOrDescendantListens | crates/router-dsh/src/process.rs:333-343 | the port is ours iff some listener is within four steps of the recorded process |
| ProcessFamily.ChainOfFiveUnseen | crates/router-dsh/src/process.rs:345-350 | a listener five steps away on the only path is not found |
| Links.ChainLeadsOn | crates/router-dsh/src/provisioning.rs:172-180 | every link on the way to a file leads to that file |
| Links.FreshLink | crates/router-dsh/src/provisioning.rs:237-251 | a link made where nothing was leads to its target's file and disturbs no one's way there |
| Provisioning.FileSystem.EnsureSettings | crates/router-dsh/src/provisioning.rs:71-91 | settings are written only where nothing exists |
| Provisioning.FileSystem.EnsureCredentials | crates/router-dsh/src/provisioning.rs:93-156 | nothing is done where the path leads to a file; otherwise a link where no entry is, or an empty file, which a dangling link is followed to |
| Provisioning.FileSystem.ProvisionRoot | crates/router-dsh/src/provisioning.rs:58-164 | the steps in order, stopping at the first failure, with a report of what was done |
| Provisioning.FileSystem.SetCredentialSharing | crates/router-dsh/src/provisioning.rs:294-345 | the reconciliation of the credentials file with the choice, step by step |
| Provisioning.ProvisionKeeps | crates/router-dsh/src/provisioning.rs:58-164 | provisioning changes and removes nothing that existed, whether it succeeds or not |
| Provisioning.SetSharingKeeps | crates/router-dsh/src/provisioning.rs:294-345 | changing the sharing touches no entry but the instance's credentials file |
| Provisioning.ProvisionReportTrue | crates/router-dsh/src/provisioning.rs:93-156 | a report of shared credentials is true; a report that they are not is false iff an existing file leads to the host's without sharing asked for, or the entry dangles where the host path does |
| Provisioning.ProvisionReportExact | crates/router-dsh/src/provisioning.rs:71-164 | settings are reported written iff a model was given and nothing was there, and then hold the document for that model; created unshared credentials are empty, and private iff the entry did not dangle where the host path leads |
| Provisioning.DanglingLinkCreatesHostFile | crates/router-dsh/src/provisioning.rs:149-154 | sharing, losing the host's file and starting without sharing creates the host's file and reports it private |
| Provisioning.SettingsNamed | crates/router-dsh/src/provisioning.rs:188-218 | the settings written for `provider/model` name both |
| Provisioning.SettingsDefault | crates/router-dsh/src/provisioning.rs:212-218 | for a spec that lacks either half they name the default provider and the whole spec |
| Provisioning.CredentialsReported | crates/router-dsh/src/provisioning.rs:93-156 | credentials are reported created iff nothing was there, and shared iff that was asked for and what is there is the host's or a link to it could be made |
| Provisioning.ProvisionFailsIff | crates/router-dsh/src/provisioning.rs:58-156 | provisioning fails iff the directory, the settings or the private credentials file cannot be made where one is called for; a link that fails is no failure |
| Provisioning.ProvisionAdds | crates/router-dsh/src/provisioning.rs:58-164 | provisioning adds entries only at the root and where the paths of the two files led to nothing |
| Provisioning.SharedAnswerIff | crates/router-dsh/src/provisioning.rs:294-345 | an answer of `Shared` is true of the files iff the state root exists |
| Provisioning.SharingAnswer | crates/router-dsh/src/provisioning.rs:308-345 | which answer a change of the sharing gives, exactly, where there is a state root |
| Provisioning.SharingLeaves | crates/router-dsh/src/provisioning.rs:308-345 | and what it leaves at the credentials path: a link to the host's file, an empty file, or after a failure half way nothing |
| Provisioning.SharingBeforeStart | crates/router-dsh/src/provisioning.rs:301-309 | without a state root nothing is touched |
| Provisioning.TurnedOffIff | crates/router-dsh/src/provisioning.rs:311-316 | after turning sharing off the file leads to the host's iff the host path led through it |
| Provisioning.ProvisionTwice | crates/router-dsh/src/provisioning.rs:58-164 | repeating a successful call changes nothing, whatever may fail |
| Provisioning.RunKeeps | crates/router-dsh/src/provisioning.rs:58-345 | over any run of calls nothing that existed is changed or removed, the credentials files of the roots whose sharing was changed apart |
| Provisioning.SettingsKeptInRuns | crates/router-dsh/src/provisioning.rs:74-91 | an existing settings file keeps its bytes in every run |
| Provisioning.TurnedOffStaysOff | crates/router-dsh/src/provisioning.rs:311-316 | once sharing is off, no run of calls on any roots makes the file lead to the host's until this root is shared again |
| LexicalPath.LexicalAbsolute | crates/router-core/src/workspace.rs:153-172 | the refusing loop computes the specified collapse |
| LexicalPath.Normalise | crates/router-cli/src/paths.rs:127-142 | the clamping loop computes its own |
| LexicalPath.AcceptedIff | crates/router-core/src/workspace.rs:153-172 | a path is accepted iff no prefix of it has more parent steps than names, and the result has as many names as the balance says |
| LexicalPath.ClampAgrees | crates/router-cli/src/paths.rs:129-142 | the clamping version agrees wherever the refusing one succeeds |
| LexicalPath.CollapsePrefixFirst | crates/router-core/src/workspace.rs:153-172 | collapsing a, appending b and collapsing is collapsing a followed by b |
| LexicalPath.ClampPrefixFirst | crates/router-cli/src/paths.rs:129-142 | the same for the clamping version, on all paths |
| LexicalPath.NamesCollapse | crates/router-core/src/workspace.rs:153-172 | a result is a fixed point |
| LexicalPath.ParentCancelsName | crates/router-core/src/workspace.rs:160-167 | a name and the parent step behind it cancel anywhere in a path, in both versions |
| LexicalPath.NamesThatSurvive | crates/router-cli/src/paths.rs:129-142 | the result is exactly the names behind which no prefix of the path has more parent steps than names, in their order |
| Lifecycle.PushBounded | crates/router-dsh/src/readiness.rs:158-163 | drops the oldest line of a full buffer and appends |
| Lifecycle.PushKeepsLast | crates/router-dsh/src/readiness.rs:158-163 | pushing onto the last lines gives the last lines |
| Lifecycle.MultiSupervisor.Register | crates/router-dsh/src/multi.rs:308-322 | a known name keeps its slot, a new one gets an absent slot |
| Lifecycle.MultiSupervisor.PumpStderr | crates/router-dsh/src/multi.rs:818-822 | a line enters the bounded tail of its slot and changes nothing else |
| Lifecycle.MultiSupervisor.Start | crates/router-dsh/src/multi.rs:402-568 | the checks in order, the state and error of each outcome, and no other slot |
| Lifecycle.MultiSupervisor.AwaitReady | crates/router-dsh/src/multi.rs:590-685 | the wait as a function of the events, on this slot alone |
| Lifecycle.MultiSupervisor.GraceWindow | crates/router-dsh/src/multi.rs:646-681 | the window after the port answered |
| Lifecycle.MultiSupervisor.Stop | crates/router-dsh/src/multi.rs:734-769 | a stopped slot has neither process nor URL |
| Lifecycle.MultiSupervisor.StopAll | crates/router-dsh/src/multi.rs:776-791 | exactly the ready slots are stopped, and no failure is possible |
| LifecycleRuns.StartOutcome | crates/router-dsh/src/multi.rs:402-685 | a start succeeds iff the instance ends up ready; failed provisioning and spawning leave it in `Starting`, every other failure in `Failed` |
| LifecycleRuns.WaitOutcome | crates/router-dsh/src/multi.rs:590-685 | the first event that ends a wait decides it: a confirming probe makes the slot ready with its version and time and the last URL announced before or the first in the window after, an exit or the deadline fails it with the last 50 lines until then |
| LifecycleRuns.StartRefusals | crates/router-dsh/src/multi.rs:402-500 | which check refuses a start, exactly, and that a refusal before the launch changes nothing but the state |
| LifecycleRuns.StartWaits | crates/router-dsh/src/multi.rs:402-568 | past the checks a start succeeds iff the first event that ends the wait confirms that the port answers, and ends as the wait does |
| LifecycleRuns.AlwaysSane | crates/router-dsh/src/multi.rs:308-791 | over every run, between operations a recorded URL implies a ready instance, and no slot holds a process handle |
| LifecycleRuns.PortsAndRestarts | crates/router-dsh/src/multi.rs:308-500 | over every run a slot keeps the port of its first registration, and its restart count is the number of launches attempted |
| LifecycleRuns.NothingReadyAfterStopAll | crates/router-dsh/src/multi.rs:776-791 | after `stop_all` nothing is ready, no URL is left and no slot is lost |
| LifecycleRuns.StopLeaves | crates/router-dsh/src/multi.rs:734-769 | a stop leaves of a slot all but the process, the URL and the state |
| LifecycleRuns.StopAllStopsReady | crates/router-dsh/src/multi.rs:776-791 | `stop_all` does to a ready instance what `stop` does, and to any other nothing |
| LifecycleRuns.NeverStarted | crates/router-dsh/src/multi.rs:308-322 | of an instance never started nothing is recorded but its port and whether it was stopped |
| LifecycleRuns.OthersUntouched | crates/router-dsh/src/multi.rs:308-791 | no operation on one name changes another's slot |
| LifecycleRuns.RunOfOneName | crates/router-dsh/src/multi.rs:308-791 | what a run makes of a name depends only on the operations that concern it |
| LifecycleRuns.TailAlwaysLast | crates/router-dsh/src/readiness.rs:158-163 | over every run the stderr tail is the last at most 50 lines since the last clear |
| Text.TrimEndMeaning | crates/router-core/src/term.rs:821 | trimming keeps a prefix and drops white space only |
| Text.DecimalRoundTrip | crates/router-relay/src/proxy.rs:188 | every port survives being written in decimal and parsed back |

## Left out

Stated weaker than the source:

- Rewriter.RewriteAttributes: positions are characters here and bytes in the source; they agree because every pattern is ASCII and slices are cut only next to one.
- Routing.InstancePathResolves: the length of a prefix is counted in characters, in bytes in the source; valid instance names are ASCII, so they agree for every registered route.
- Routing.MarkersRoundTrip: markers have the value the gateway sets, and other cookies are none by `MarkedIff`.
- Routing.PrefixedTargetComesBack: fragments and the parsing of a target as a URI are not modelled; a target is its path and its query.
- Headers.FilterHeaders: field names are lower case, as the HTTP library keeps them, and a value that is not visible ASCII is `None`.
- Registry.Validate: which of several problems is reported depends on the visiting order, which is left open; that the verdict does not depend on it is part of what is proved.
- Registry.RegistryObject.Run: the ports that can be bound are one set for the duration of an allocation, and the two values an edit writes are given; `EditRequest` computes them from the snapshot.
- Ports.Allocate: the claims are a value; `PortClaims` itself is a set with insertion and removal.
- ProtocolProperties.NoUpdateLost: clocks and back-off delays are nondeterministic steps, process identifiers are not used twice at a time, and only a dead owner's lock is removed by hand. For runs that start without a registry and have an `init` in them, RegistryIsGrown says what is kept.
- ProtocolProperties.TempsNeverShared: a fresh process starts its counter again, so a temporary file of a crashed process can be written over, but not while its save is unfinished.
- FittingProperties.NeverWiderIff: for flexible columns that are named once, and cells and headers without newlines; of a column named twice only the overflow is shown. Sums of widths are unbounded, as only the sums the source saturates can reach the end of its range.
- Printed.CellPrinted: for cells and headers without newlines, rows that leave no escape open, and cells that show something and do not end in white space.
- FittingOrder.ShareIsProportional: for tables whose sums stay within a usize; the source saturates beyond.
- FittedPrinted.FittedCellPrinted: for flexible columns that are named once.
- Alignment.HeaderAlignedIff: for headers without escapes, which all of the program's are, and a header that is not empty and does not end in white space; the headers before it may.
- ProcessFamily.DescendantsOf: one fixed process table for all queries; the parsing of the query's output is not modelled, nor is the Unix version, which returns the process alone.
- Provisioning.FileSystem.ProvisionRoot: paths are flat and links are followed at the last component only; parent directories are there, and permissions are the flags that let an operation fail.
- Provisioning.ProvisionReportExact: the settings document is modelled without its leading comment.
- LexicalPath.LexicalAbsolute: a path is given as its components after the root; joining a relative path to the working directory and Windows path prefixes are not modelled.
- Lifecycle.MultiSupervisor.Start: operations run one at a time, although the source interleaves them at its locks; restart counts do not wrap; what provisioning, spawning, probes and timers do is arbitrary input. That a probe eventually happens is not claimed: the timers are made anew on every turn of the loop.

Not modelled:

- sockets, streaming bodies, the WebSocket tunnel and the wiring of the HTTP libraries
- spawning and killing processes, and the parsing of `netstat`, `ps` and `lsof` output
- YAML: loading and saving are exact on documents
- the detection of the terminal's width, glyph choice and all other printing
- the control page, opening browsers, the command line, `doctor`, and version lookup
- configuration, error texts, health reports and the state enumeration, which are flat
- the single-instance supervisor, which nearly repeats the lifecycle modelled here
- recognising a harness by its output, command line or launcher text
- file systems that do not distinguish case; state roots are compared as text
