# marktuator in Dafny

marktuator is a command-line checker for the links in Markdown files. It reads
its configuration from flags, parses every Markdown file with goldmark and
collects each link's file, text and destination. It then checks every link
concurrently, with an HTTP GET for external links and a file lookup for
relative ones, and reports the unavailable ones.

This project models the core of that program and proves what it guarantees:

- **`Config`** (`config.dfy`, internal/config/config.go).
  - `ParseValidatorConfig` splits the status flag on commas, trims each entry and reads it with `strconv.Atoi`. It stops at the first bad entry, where the program exits and the model returns an error.
  - It turns the timeout in seconds into a `time.Duration`, including the int64 wrap-around of that multiplication.
  - `ParseLoggerConfig` chooses the level from its name in any letter case and derives file output from the path.
- **`Validator`** (`validator.dfy`, pkg/validator/validator.go).
  - It models the allowed-status set, the client built from the configuration, and the availability decision of `CheckLink`.
  - The HTTP GET is a function parameter that gives either a transport error or a response with a status code.
- **`Md`** (`md.dfy`, pkg/md/md.go).
  - `LinkToString`.
  - `extractText`, over the direct children of a link.
  - `ExtractLinks`: a pre-order walk of every parsed document, visiting the files in any order.
  - The goldmark tree is a datatype with link, text and other nodes. The parser is a function parameter.
- **`Marktuator`** (`main.dfy`, cmd/marktuator/main.go).
  - `checkLinks` gives one goroutine per link; the goroutines finish in an order the program does not fix.
  - The channel is drained in arrival order, and the links of failed results are reported.
  - `md.CheckRelativeLink` and the HTTP GET are function parameters.
- **`GoStrings`** (`go_strings.dfy`) holds the parts of Go's standard library the core relies on, written out: `strings.Split` with a one-character separator, `strings.TrimSpace`, `strings.ToLower`, `strconv.Atoi` and int64 wrap-around. It also defines `strings.Join` and `strconv.Itoa`, which the program never calls. They are there as the inverses of `Split` and `Atoi` for the round-trip lemmas (`JoinSplit`, `SplitJoin`, `AtoiItoa`).
- **`Results`** (`results.dfy`) gives `Option` and `Result`.

Go maps used as sets (`map[int]struct{}`) become `set<int>`. A `time.Duration` is an `int` number of nanoseconds.

Where the code and its description disagree, the model follows the code:

- The text of a link is the concatenation of its *direct* text children only (pkg/md/md.go:63-67). Text inside emphasis or code within the link is not part of it.
- cmd/marktuator/main.go:66-67 uses a field `md.Link.IsRelative` and a function `md.CheckRelativeLink`, but pkg/md/md.go:15-19 defines neither.
  - The model adds `IsRelative` to `Md.Link`. `Md.ExtractLinks` sets it through a classifier parameter.
  - pkg/md/md.go at this revision declares no `IsRelative` field, so nothing there sets it. The model takes that as the classifier that answers false everywhere.
- main.go imports the validator as `url_validator` while the file declares `package validator`. main_test.go calls `checkLinks` with four arguments, not five. The model follows validator.go and the five-argument main.go.

## Model

| member | source | states |
|---|---|---|
| GoStrings.WrapInt64Congruent | internal/config/config.go:63 | the wrapped product differs from the exact one by a multiple of 2^64, and is the exact one when that lies in int64 range |
| GoStrings.Split | internal/config/config.go:49 | the status flag splits into one more piece than it has commas, so the empty flag gives one entry |
| GoStrings.JoinSplit | internal/config/config.go:49 | joining the pieces of `strings.Split` with the separator gives back the original string |
| GoStrings.SplitJoin | internal/config/config.go:49 | splitting separator-free pieces joined by the separator gives back exactly those pieces |
| GoStrings.SplitPiecesSeparatorFree | internal/config/config.go:49 | no piece of a split contains the separator |
| GoStrings.SplitSeparatorFree | internal/config/config.go:49 | a string without a comma splits into itself alone, so the empty string gives one empty entry |
| GoStrings.SplitAppend | internal/config/config.go:49 | a separator between two strings splits them into the pieces of the first followed by the pieces of the second |
| GoStrings.LeadingSpacesMaximal | internal/config/config.go:53 | the leading part TrimSpace removes is all white space and is followed by a non-space or the end |
| GoStrings.TrailingSpacesMaximal | internal/config/config.go:53 | the trailing part TrimSpace removes is all white space and is preceded by a non-space or the start |
| GoStrings.TrimSpace | internal/config/config.go:53 | the trimmed entry is no longer than the entry; an all-white-space entry trims to the empty string, and an entry that starts and ends with a non-space is left as it is |
| GoStrings.TrimSpaceEnds | internal/config/config.go:53 | the trimmed entry is empty or starts and ends with a non-space character |
| GoStrings.TrimSpaceShape | internal/config/config.go:53 | the trimmed entry is a slice of the entry with only white space cut from either end, and it neither starts nor ends with white space |
| GoStrings.TrimSpaceIdempotent | internal/config/config.go:53 | trimming twice is trimming once |
| GoStrings.ToLower | internal/config/config.go:69 | same length, every character lowered on its own |
| GoStrings.Atoi | internal/config/config.go:53 | an accepted entry lies within int64 range |
| GoStrings.AtoiOutcome | internal/config/config.go:53-54 | a syntax error exactly when the text is not an optional sign followed by one or more digits (so the empty entry is one) and its leading digits do not already pass 2^64 - 1; a value only for a signed run of digits; leading digits past 2^64 - 1 give a range error; the value's sign follows the sign character |
| GoStrings.OverflowBeforeSyntax | internal/config/config.go:53-54 | a run of digits above 2^64 - 1 is a range error whatever text follows it |
| GoStrings.AtoiOverflowBeforeLetter | internal/config/config.go:53-54 | the entry of twenty nines followed by "x" is a range error, not a syntax error |
| GoStrings.DecimalValueFormatNat | internal/config/config.go:53 | reading the decimal digits of a natural number gives that number |
| GoStrings.AtoiItoa | internal/config/config.go:53 | Atoi reads back every int64 written in canonical decimal |
| Validator.StatusSetMembers | pkg/validator/validator.go:14-23 | a code is in the prepared set exactly when it is one of the arguments |
| Validator.StatusSetIgnoresOrder | pkg/validator/validator.go:16-22 | argument lists with the same members, in any order and with any repetition, give the same set |
| Validator.PrepareAllowedStatuses | pkg/validator/validator.go:14-23 | the loop builds the set of the arguments: a code is in the result exactly when it occurs among them (none gives the empty set) |
| Validator.GetClient | pkg/validator/validator.go:25-31 | the client's timeout is the configured timeout |
| Validator.CheckLink | pkg/validator/validator.go:33-47 | a transport error means unavailable; otherwise the link is available exactly when the response's status code is allowed |
| Validator.CheckLinkWithPrepared | pkg/validator/validator.go:44-46 | with a set made from a list of codes, a link is available exactly when the server answered with one of the listed codes |
| Config.ToLowerMatches | internal/config/config.go:69 | lower-casing a level name gives a lower-case word exactly when the name spells that word letter by letter in any case |
| Config.ParseLoggerConfig | internal/config/config.go:67-86 | output goes to a file exactly when a path is given, and the path and JSON flag pass through. The level is debug, warn or error exactly when the name spells that word in any case, and info for every other name |
| Config.EntriesSetSameEntries | internal/config/config.go:52-62 | lists with the same entries, in any order or number, denote the same allowed set, or are both rejected |
| Config.EntriesSetRejects | internal/config/config.go:53-57 | one entry that is not an integer rejects the whole list |
| Config.StatusSetOfRejects | internal/config/config.go:53-57 | when some entry is the first rejected one, the status string denotes no set |
| Config.StatusSetOfParsed | internal/config/config.go:49-62 | when the trimmed entries read as a list of integers, the status string denotes the set PrepareAllowedStatuses builds from that list |
| Config.EntriesSetValues | internal/config/config.go:52-59 | when every trimmed entry reads as the matching value, the list is accepted and allows exactly those values |
| Config.SpelledPrefixGrows | internal/config/config.go:53-58 | reading the next entry extends the prefix of entries read so far by its value |
| Config.ParseStatusList | internal/config/config.go:49-59 | on success there is one value per comma-separated entry, and each is Atoi of that entry trimmed. On failure the error names the first entry that is not an integer, untrimmed, together with Atoi's reason |
| Config.ParseValidatorConfig | internal/config/config.go:48-65 | a configuration is produced exactly when every trimmed entry is an integer. Its allowed set is exactly those integers and its timeout is the seconds as a wrapping int64 duration. Otherwise the error reports the first bad entry |
| Config.StatusSetOfSwap | internal/config/config.go:49-62 | swapping two comma-separated parts of the status list leaves the allowed set (or the rejection) unchanged |
| Config.StatusSetOfDuplicate | internal/config/config.go:49-62 | repeating the status list leaves the allowed set (or the rejection) unchanged |
| Config.EmptyStatusStringRejected | internal/config/config.go:49-57 | the empty status string is rejected |
| Config.EmptyEntryRejected | internal/config/config.go:49-57 | an empty entry between two commas rejects the list, whatever surrounds it |
| Config.NonNumericEntryRejected | internal/config/config.go:53-57 | an entry at any position (first, last or in between) whose trimmed text is not a signed run of digits rejects the list |
| Config.TimeoutDuration | internal/config/config.go:63 | the duration is an int64 that differs from the timeout's seconds times `time.Second` by a multiple of 2^64 |
| Config.TimeoutIsSeconds | internal/config/config.go:63 | for timeouts up to about 292 years the duration is exactly the seconds times 10^9 nanoseconds |
| Config.TimeoutOverflows | internal/config/config.go:63 | 9223372037 seconds wrap to a negative duration |
| Md.LinkToString | pkg/md/md.go:21-23 | the length is the three fields' lengths plus the 13 fixed characters; it starts with "[" and ends with the file |
| Md.LinkToStringInjective | pkg/md/md.go:21-23 | when the text has no "]" and the destination no ")", the string determines the text, the destination and the file |
| Md.SplitAtFirst | pkg/md/md.go:22 | cutting a string at the first occurrence of a character determines both parts |
| Md.TailInjective | pkg/md/md.go:22 | the part after "](" determines the destination and the file |
| Md.FindAfter | pkg/md/md.go:22 | the first occurrence of a character that the prefix lacks is right after the prefix |
| Md.ExtractText | pkg/md/md.go:60-70 | the loop over a link's children yields the values of its direct text children, concatenated in order |
| Md.DirectTextAppend | pkg/md/md.go:63-67 | the text of two runs of children is the text of the first followed by that of the second |
| Md.DirectTextWithoutTextNodes | pkg/md/md.go:61-69 | a link without text children has the empty text |
| Md.DirectTextSkipsNonText | pkg/md/md.go:64-66 | a child that is not a text leaf adds nothing, even when it has text beneath it |
| Md.ChildrenLinksSnoc | pkg/md/md.go:34-53 | walking one more child appends that child's records |
| Md.NodeLinksUnfold | pkg/md/md.go:34-53 | a node's records are its own, if it is a link, followed by those of its children |
| Md.WalkLinks | pkg/md/md.go:34-53 | walking a node appends exactly its records to the list built so far. The record of a link node comes first, then its children's, so links nested inside links are found too |
| Md.WalkChildren | pkg/md/md.go:34-53 | walking the children first to last appends their records in that order |
| Md.LinkRecordsAppend | pkg/md/md.go:34-53 | the records of two runs of nodes are those of the first followed by those of the second |
| Md.LinkRecordsShape | pkg/md/md.go:37-48 | one record per link node, each naming the document's file |
| Md.NodeLinksPreOrder | pkg/md/md.go:34-53 | the walk emits exactly one record per link node of the tree, in pre-order. Each record has the document's key as file, the destination verbatim as URL and the link's direct text as text |
| Md.ChildrenLinksPreOrder | pkg/md/md.go:34-53 | the same for a run of sibling subtrees, left to right |
| Md.NodeLinksShape | pkg/md/md.go:34-53 | a document yields as many records as it has link nodes, all naming its file; a document without links yields none |
| Md.FromFileAppend | pkg/md/md.go:42-49 | the records of one file in two appended lists are those in the first followed by those in the second |
| Md.FromFileAll | pkg/md/md.go:42-49 | a list whose records all name a file is its own view for that file |
| Md.FromFileNone | pkg/md/md.go:42-49 | a list with no record naming a file has an empty view for that file |
| Md.FromFilePartition | pkg/md/md.go:29-54 | every record is either from a given file or from another, and removing one file's records leaves the other files' views unchanged |
| Md.RecordCount | pkg/md/md.go:29-54 | a list holding exactly each file's walk records, and nothing else, has as many records as all documents have link nodes together |
| Md.ExtendedFileViews | pkg/md/md.go:29-54 | appending one document's walk to records of other files gives that file exactly its walk and leaves every other file's records alone |
| Md.ExtractLinks | pkg/md/md.go:25-58 | whatever order the files are visited in, every record names a file of the input. The records of each file are exactly that document's pre-order walk, in document order. The total is the number of link nodes in all documents |
| Md.TwoLinkDocument | pkg/md/md_test.go:13-38 | a heading and a paragraph with two links yield exactly those two links, in order, each with its own text |
| Md.TwoLinkParagraph | pkg/md/md_test.go:17-18 | the paragraph's two links yield one record each, and the text around them yields none |
| Md.SingleTextLink | pkg/md/md.go:60-70 | a link whose only child is a text leaf yields one record with that text |
| Marktuator.CheckOne | cmd/marktuator/main.go:65-71 | a relative link gets the relative checker's verdict; any other link is available exactly when the GET answered with an allowed status |
| Marktuator.CheckInGoroutine | cmd/marktuator/main.go:63-72 | a goroutine sends a result carrying its own link and that link's verdict |
| Marktuator.CheckedAppend | cmd/marktuator/main.go:61-73 | checking two lists one after the other gives the results of each, in turn |
| Marktuator.CheckedShape | cmd/marktuator/main.go:61-73 | one result per link, at the link's position, with that link's verdict |
| Marktuator.CheckedVerdicts | cmd/marktuator/main.go:65-71 | every result pairs an input link with that link's own verdict |
| Marktuator.PendingStep | cmd/marktuator/main.go:61-72 | completing any one pending link moves exactly its result from the pending ones to the channel |
| Marktuator.LinksOfCount | cmd/marktuator/main.go:86 | a link is carried by the results as often as a result for it, available or not, occurs |
| Marktuator.LinksOfChecked | cmd/marktuator/main.go:61-72 | the results of checking a list carry that list |
| Marktuator.ResultLinksPermutation | cmd/marktuator/main.go:61-87 | in any arrival order the results carry every input link exactly as often as the input holds it, with none lost and none duplicated |
| Marktuator.UnavailableCount | cmd/marktuator/main.go:80-85 | a link is reported as often as a failed result for it arrives |
| Marktuator.UnavailablePermutation | cmd/marktuator/main.go:79-85 | the report depends only on which results arrived, not on their order |
| Marktuator.UnavailableChecked | cmd/marktuator/main.go:79-85 | reporting the failures of the results in input order lists exactly the failing links |
| Marktuator.ReportIsFailingLinks | cmd/marktuator/main.go:61-87 | whatever order the goroutines finish in, the reported links are exactly the links whose check fails, each as often as it occurs in the input |
| Marktuator.ArrivedResults | cmd/marktuator/main.go:61-87 | any arrival order of the results gives one result per link and carries the input links exactly. Each result holds its own link's verdict, and the report holds exactly the failing links |
| Marktuator.DrainChannel | cmd/marktuator/main.go:78-87 | every result is kept in arrival order, and the report lists the failed ones' links in that same order |
| Marktuator.CheckLinks | cmd/marktuator/main.go:51-91 | one result per input link, carrying the input links exactly, each with its own link's dispatched verdict (a false result never stops another link's check). The report lists exactly the failing links, in arrival order |

## Left out

- `ParseConfig` (internal/config/config.go:20-46) is not modelled: it is flag parsing, `flag.Usage` and `os.Exit`. In `ParseValidatorConfig` the exit on a bad entry is modelled as an `Err` result carrying the entry and the reason.
- `ReadMdFiles` (pkg/md/md.go:72-95) is not modelled: it is a filesystem traversal. The file map is an input.
- The goldmark parser (pkg/md/md.go:26,32) is a function parameter from bytes to a tree. Markdown grammar is not modelled, and a text leaf's `Value(content)` is the value stored in the leaf.
- The HTTP GET, its body handling and the client's behaviour (pkg/validator/validator.go:36-42) are a function parameter. It gives a transport error or a status code and is assumed to answer the same URL the same way within one run.
- `md.CheckRelativeLink` (cmd/marktuator/main.go:67) is a function parameter. md.go does not define it, so it is not part of this model.
- Goroutines, `sync.WaitGroup` and the buffered channel (cmd/marktuator/main.go:58-76) are modelled as a loop that completes the pending links one at a time, in an order of the verifier's choosing. Real concurrency and interleaving are not modelled.
- `fmt.Printf`, every `slog` call and their output formats are left out. The report is the list of unavailable links in the order they are printed; the exact text of the printed line is not modelled.
- pkg/logger/logger.go and `setupLogger` (cmd/marktuator/main.go:35-44) are left out: they open files and build slog handlers. `main` (cmd/marktuator/main.go:15-33) only wires the modelled parts together.
- GoStrings.TrimSpace: only ASCII white space (tab, line feed, vertical tab, form feed, carriage return, space) is removed, not the other Unicode spaces Go's version also removes.
- GoStrings.ToLower: only ASCII letters are lowered. For matching the level names "debug", "warn" and "error" this gives Go's outcome on every input, because Go lowers no other character to an ASCII letter except the Kelvin sign (to "k") and the dotted capital I (to "i"). None of the three names contains a "k" or an "i", so neither can make a name match.
- GoStrings.Atoi models a 64-bit platform's `int`; the text of the `*NumError` message is not modelled, only its reason (syntax or range).
- Config.ParseValidatorConfig requires the timeout to be an int64, as Go's `int` on a 64-bit platform is.
- Md.LinkToString: the contract states the length, the leading "[" and the trailing file, and the injectivity lemma states what the format determines. The full layout is in the function's definition.
