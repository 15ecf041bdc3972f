# A verified model of svnsrv

svnsrv is a proxy for Subversion's `svn://` protocol. It greets a client, reads the client's handshake, takes the URL
in it apart, picks a backend by the first two characters of the URL's owner, forwards the handshake and then relays
bytes in both directions. Its command line is read by a bundled `getopt_long` and its configuration by a bundled TOML
library. This project models these five parts in Dafny and proves what they promise.

| files | part |
|---|---|
| `Orbits`, `Permute`, `OptionSyntax`, `OptionLaws`, `OptionRescan`, `OptionGrammar`, `ArgumentLayout`, `Getopt` | the command line: `src/argv_getopt.inl` |
| `Toml*`, `Decimal` | the configuration language, reader and writer: `src/cpptoml.h` |
| `Handshake`, `HandshakeLaws`, `HandshakeCuts`, `HandshakeLimits`, `HandshakeReader`, `Url` | the client's handshake and its URL: `src/SubversionHds.cc` |
| `Router`, `Pipeline` | the choice of a backend: `src/RouterSeletor.cc` |
| `ErrorFrame`, `Session`, `SessionRuns`, `SessionLosses`, `SessionProgress`, `SessionErrors`, `SessionHandlers` | the session and its relay: `src/SubversionSession.cc` |

Code that changes state is a class with loops (`Getopt.Scanner`, `TomlParser.Parser`, `TomlWriter.Writer`,
`HandshakeReader`, `Url.SubversionUriCanonicalize`, `Router.RouterSeletor`, `SessionHandlers.SubversionSession`), each
method proved equal to a function; the properties of those functions are lemmas.

The main results, by part:

* **Permuting arguments.** `PermuteArgs` follows gcd-many cycles and exchanges two adjacent blocks; that the cycles are
  disjoint, closed and cover the segment is proved from Bezout's identity (`Orbits`).
* **Scanning a command line.** However options and plain arguments are mixed, calling `getopt_long` to the end reports
  what the unordered vector says and leaves its stable partition; every call consumes something. What it says is fixed
  by a grammar of command lines that every argument vector belongs to: option words, their arguments, long options with
  their table rows, mistakes, operands and `--`. Scanning the ordered vector again reports the same and moves nothing
  exactly when the last option lacks no argument or nothing was moved behind it.
* **TOML.** A grammar says in which ways a text can be spelled (escapes, literal strings, underscores, blanks, comments,
  arrays over several lines) and what it means; the reader accepts exactly these texts, with that meaning. Idle lines
  make no difference anywhere. Reading only ever adds to what has been read. Writing a table and parsing the text gives
  back the same table exactly when it is readable and its keys are not empty, in any iteration order of the table;
  otherwise exactly what is lost is known. A table read from a text without floating-point values survives being written
  exactly when it lacks two things.
* **Handshake and URL.** Every well-formed handshake is read as exactly its fields, for any white space, and it is known
  exactly which of its first parts are served, when the single read ends early, and with what fields; the URL splitter
  is splitting at the first five slashes; and printing what it accepts and reading it again changes nothing.
* **Routing.** The 16-bit intervals are lexicographic ranges; the backend of a handshake is the first entry of the
  routing file that covers the owner and is not switched off, with absent keys and incomplete rows accounted for, and
  nothing else in the handshake matters; an owner of fewer than two characters has none.
* **Session.** In every run and interleaving: one operation per direction, none issued into the midst of another, no
  shared buffer, byte conservation, a readable error frame or relayed bytes but never both, and no restart of what has
  ended. A direction of the relay ends if and only if one of its own operations fails; until then it can still deliver
  whatever is sent. Which error is told for which cause, and which backend is connected to, is known exactly. The
  session's own class takes exactly the steps of these runs.

Twelve promises hold only under a condition; each is stated with its exact condition and with inputs that break it:

* The client gets the whole greeting first if and only if its single write took all of it (`WhatTheClientGets`,
  `CutGreeting`); the source writes it once with `async_write_some`.
* Upward conservation holds if and only if the single write of the handshake took all of it (`UpwardConservation`,
  `ShortWriteLoses`), for the same reason.
* Scanning an ordered vector again changes nothing if and only if no option lacks an argument or no plain argument was
  moved (`ScanAgain`, `HungryOption`).
* A printed date is read back if and only if its offset is well signed (`DateRoundTrip`, `LostSign`).
* A written table is read back if and only if it has no empty keys, no boolean or mixed arrays, no empty arrays of
  tables and only well-signed dates (`RoundTripExactly`, `NotReadable`).
* A fraction of a second is read as section 5.6 of RFC 3339 defines it if and only if it has six digits or is zero
  (`FractionMeaning`, `HalfASecond`); the writer's fractions all have six.
* A header whose table exists is refused if and only if the table is empty or holds a value that is not an array
  (`HeaderAgain`); `[a]`, `k = [1]`, `[a]` is accepted (`HeaderRepeated`).
* A table that was read from a text without floating-point values, multi-line strings and inline tables survives being
  written if and only if it has no empty key and no date with a positive offset below one hour, both of which the
  reader accepts (`ReadWriteRead`, `EmptyKeyLost`, `EastLost`).
* A handshake whose single read ends early is served if and only if it holds the URL with the character behind it and
  does not end within the user agent's name, the colon before it and the character behind it included
  (`CutHandshake`, `CutInName`).
* An otherwise well-formed handshake is read as its fields if and only if its version has one digit
  (`OneDigitVersion`); of a longer one only the first digit is read.
* An error frame reads back as a ra_svn item if and only if its identifier is not negative (`FrameReadsBack`); the
  session's own two identifiers are positive, so its frames do in every run (`FrameIsReadable`).
* An explicit port takes the place of the host instead of setting the port. It is read as it is written if and only if
  it is the scheme's own port and the host is the same digits (`PortAsWritten`); the URL reads like the one without the
  port if and only if port and host are equal texts (`ExplicitPort`). A comment in `src/SubversionHds.cc` names that
  form of URL; the model follows the code.

## Model

| member | source | states |
|---|---|---|
| Orbits.WalkInjective | src/argv_getopt.inl:82-96 | within one cycle no position is visited twice: equal positions are less than a cycle length apart only if they are the same step |
| Orbits.WalkCloses | src/argv_getopt.inl:79-85 | after size/gcd steps a walk is back at its start |
| Orbits.WalkStaysInClass | src/argv_getopt.inl:82-89 | a walk never leaves its residue class modulo the gcd, so different cycles are disjoint |
| Orbits.WalkCovers | src/argv_getopt.inl:79-89 | every position of the class is visited |
| Permute.Gcd | src/argv_getopt.inl:48-59 | the loop computes the greatest common divisor, as the divisor that every common divisor divides |
| Permute.ExchangeCycles | src/argv_getopt.inl:77-84 | gcd-many cycles of length size/gcd, cycle i starting at the i-th place of the second block, partition the segment |
| Permute.PermuteArgs | src/argv_getopt.inl:69-97 | the array becomes the one with the two blocks exchanged, everything outside unchanged |
| OptionSyntax.LongLookupMeaning | src/argv_getopt.inl:123-149 | what the scan of the long-option table answers, in terms of exact and abbreviated names only |
| OptionSyntax.LongMatchUnique | src/argv_getopt.inl:123-149 | that description determines the answer |
| OptionSyntax.NextCall | src/argv_getopt.inl:248-317 | a call that reports an option moves strictly forward and never reports the end-of-scan code |
| OptionSyntax.LaterLeavesLess | src/argv_getopt.inl:248-317 | the measure (arguments left, characters left in the current one) falls with every call that reports |
| OptionSyntax.ReadOptionTail | src/argv_getopt.inl:325-395 | an option is read from its own and later arguments only, so reordering earlier ones cannot change it |
| OptionSyntax.SelectStable | src/argv_getopt.inl:64-68 | the k-th argument of a kind goes to the k-th place of that kind: the partition keeps the order within both kinds |
| OptionSyntax.SelectSplits | src/argv_getopt.inl:248-317 | options and plain arguments together are exactly the scanned arguments |
| OptionSyntax.PartitionedPermutes | src/argv_getopt.inl:248-317 | a finished scan has only reordered the vector |
| OptionSyntax.MovedArgumentsArePlain | src/argv_getopt.inl:267-296 | what is moved behind the options are plain arguments, never an option or its argument |
| OptionLaws.BundledLetters | src/argv_getopt.inl:373-376 | letters bundled in one word are reported one by one |
| OptionLaws.BundlingLaw | src/argv_getopt.inl:373-376 | `-abc` reports what `-a -b -c` reports |
| OptionLaws.AttachedOrSeparate | src/argv_getopt.inl:376-392 | `-ovalue` and `-o value` report the same |
| OptionLaws.LongAttachedOrSeparate | src/argv_getopt.inl:116-173 | `--name=value` and `--name value` report the same |
| OptionGrammar.Understood | src/argv_getopt.inl:215-395 | a command line written as items (words of letters with any of their endings, long options, a lone dash, operands, `--` and the rest) reports what its items mean, one after the other, and is left as options, `--`, operands, rest, with optind at the first operand |
| OptionGrammar.LineOf | src/argv_getopt.inl:215-395 | every argument vector is such a line |
| OptionGrammar.LongAnswer | src/argv_getopt.inl:104-209 | `--name`, `--name=value` and `--name value` report the row's value, or 0 and the flag set to the value, with the row's index; unknown and ambiguous names report `?` with optopt 0, and an unwanted or missing argument `:` or `?` by the option string, with the value or 0 as optopt |
| OptionRescan.ReadLocal | src/argv_getopt.inl:325-395 | an option that is not cut off by the end of the vector reads the same wherever its own arguments stand |
| OptionRescan.ScanAgain | src/argv_getopt.inl:215-395 | scanning the ordered vector again reports the same, finds the same first plain argument and moves nothing if and only if no option lacks an argument or there are no plain arguments |
| OptionRescan.HungryOption | src/argv_getopt.inl:376-389 | in `x -o` the option lacks its argument, in the ordered `-o x` it has one |
| Getopt.Scanner.FindLong | src/argv_getopt.inl:123-149 | the loop over the table gives the lookup's answer |
| Getopt.Scanner.ParseLongOptions | src/argv_getopt.inl:104-209 | code, optarg, optopt, index, flag variable and optind as the specification of a long option says |
| Getopt.Scanner.ParseLongAfterW | src/argv_getopt.inl:357-372 | the same for `-W name`, including its missing argument |
| Getopt.Scanner.TakeArgument | src/argv_getopt.inl:376-392 | attached, optional, following and missing arguments of a short option |
| Getopt.Scanner.ParseShortOption | src/argv_getopt.inl:340-395 | one short option: all fields after it |
| Getopt.Scanner.Flush | src/argv_getopt.inl:285-292 | both blocks are non-empty when the exchange is called, and the layout of passed arguments is kept |
| Getopt.Scanner.FindOption | src/argv_getopt.inl:248-317 | passing over plain arguments finds the next option or ends the scan with the vector partitioned |
| Getopt.Scanner.Finish | src/argv_getopt.inl:251-266 | at the end the vector is the stable partition and optind its first plain argument |
| Getopt.Scanner.GetoptLong | src/argv_getopt.inl:423-427 | one call answers what the next option of the unordered vector says, or -1 with the vector partitioned; also after a reset and with an index behind the vector |
| Getopt.Scanner.ScanAll | src/argv_getopt.inl:215-395 | calling until -1 terminates, reports exactly the options of the original vector and leaves its stable partition with optind at the first plain argument |
| Decimal.AccumulateDec | src/cpptoml.h:1730-1750 | reading a decimal numeral gives the number that was written |
| TomlDates.ReadPrintedDate | src/cpptoml.h:1792-1873 | a printed date is classified as a date and read back up to the sign of its minute offset |
| TomlDates.DateRoundTrip | src/cpptoml.h:125-155 | printing and reading is the identity exactly for well-signed offsets |
| TomlDates.FractionMeaning | src/cpptoml.h:1841-1846 | the digits behind the point are read as a whole number of microseconds, which is the written fraction of a second if and only if there are six of them or it is zero |
| TomlDates.HalfASecond | src/cpptoml.h:1841-1846 | `.5` is read as five microseconds |
| TomlDates.LostSign | src/cpptoml.h:140-151 | an offset of plus thirty minutes comes back as minus thirty |
| TomlText.QuotedReads | src/cpptoml.h:1597-1664 | the quoted form of any string reads back as that string, stopping behind the quote and blanks |
| TomlText.LiteralStep | src/cpptoml.h:1623-1664 | every escaped character reads as the character it stands for |
| TomlText.ParseValue | src/cpptoml.h:1409-1431 | reading a value consumes something and never goes back to an earlier line |
| TomlValues.KindOfPrinted | src/cpptoml.h:1433-1483 | the lookahead classifies every printed value by its kind |
| TomlValues.NumberReads | src/cpptoml.h:1666-1750 | every 64-bit integer reads back |
| TomlValues.FirstKind | src/cpptoml.h:1896-1900 | the lookahead for the first value of an array classifies it by its kind |
| TomlValues.ReadPrintedValue | src/cpptoml.h:1409-1431 | a printed value, nested arrays included, is read as what is seen of it and leaves the rest of the line; a boolean before other text is refused |
| TomlValues.ArrayReads | src/cpptoml.h:1875-1972 | the same for arrays: refused exactly when boolean or mixed |
| TomlValues.SeenIsSame | src/cpptoml.h:1875-1972 | a value is seen as itself exactly when its dates are well signed and its arrays of one kind other than boolean |
| TomlKeys.KeyReads | src/cpptoml.h:1332-1396 | any non-empty key, bare or quoted, reads back up to the character that ends it |
| TomlKeys.PathReads | src/cpptoml.h:1155-1193 | any path of non-empty keys reads back from the header written for it |
| TomlTree.Put | src/cpptoml.h:1169-1188 | a table put at the end of a path is found there |
| TomlTree.OpenNew | src/cpptoml.h:1146-1219 | a header whose last component is new adds an empty table there and changes nothing else |
| TomlTree.AppendNew | src/cpptoml.h:1221-1312 | a header of an array of tables appends an empty table there and changes nothing else |
| TomlTree.AppendNext | src/cpptoml.h:1237-1294 | the last component of the name of an array of tables appends an empty table to the array, a new one if there is none, and fails on anything else |
| TomlTree.OpenNext | src/cpptoml.h:1169-1188 | walking a name one component at a time builds what walking it at once builds |
| TomlTree.OpenChecked | src/cpptoml.h:1195-1214 | the redefinition check applies exactly when the named table existed before |
| TomlTree.OpenStuck | src/cpptoml.h:1171-1181 | a name that runs into a value fails, however it goes on |
| TomlListing.SeenIsForgotten | src/cpptoml.h:2191-2275 | a table survives exactly when its values are readable and it has no empty array of tables |
| TomlListing.SameItems | src/cpptoml.h:2195-2210 | what survives does not depend on the order of iteration |
| TomlRoundTrip.ItemLineReads | src/cpptoml.h:1314-1329 | a written key and value are read into the current table, or refused when the key is present or the value cannot be seen |
| TomlRoundTrip.HeaderLineReads | src/cpptoml.h:2328-2371 | a written header opens the table of its path |
| TomlRoundTrip.BodyReads | src/cpptoml.h:2191-2275 | the lines of a table, values first, then its tables, turn the empty table at its path into what is seen of it, whatever lines follow |
| TomlRoundTrip.WrittenLines | src/cpptoml.h:2328-2451 | every header and every item stands alone on its line |
| TomlRoundTrip.ParseWrite | src/cpptoml.h:1093-1120 | parsing what is written gives exactly what is seen, for every table in every order of iteration |
| TomlRoundTrip.RoundTrip | src/cpptoml.h:1093-1345 | the same table comes back if and only if it is readable |
| TomlSurvival.RoundTripExactly | src/cpptoml.h:1093-1345 | for every table in range, empty keys included: the same table comes back if and only if its keys are not empty and it is readable |
| TomlRoundTrip.NotReadable | src/cpptoml.h:1900-1919 | a boolean array, an empty array of tables and a badly signed date that do not come back |
| TomlRoundTrip.AnyOrder | src/cpptoml.h:2195-2210 | two orders of one table read as the same table |
| TomlRoundTrip.Reload | src/cpptoml.h:2459-2488 | the writer's and the parser's own loops, one after the other, give the same result |
| TomlComments.IdleLines | src/cpptoml.h:1093-1120 | over any lines: comment lines and empty lines put anywhere, within arrays too, change neither the tables nor whether they are read |
| TomlComments.CommentsAnywhere | src/cpptoml.h:1093-1120 | the same of whole texts |
| TomlSpelling.ScalarReads | src/cpptoml.h:1409-1431 | strings with escapes, literal strings, signed numbers with underscores, booleans and dates with any fraction and offset are read as what they stand for |
| TomlSpelledArrays.ValueReads | src/cpptoml.h:1876-1972 | the same of arrays, with blanks, comments and line ends around values and commas and a comma behind the last value; any character closes an array of scalars |
| TomlSpelledTexts.LinesDo | src/cpptoml.h:1093-1396 | any spelled lines (names of tables and of arrays of tables, items with bare or quoted keys, comments behind them) do what they mean, one after the other |
| TomlSpelledTexts.TextReads | src/cpptoml.h:1093-1120 | the same of whole texts |
| TomlEveryValue.ValueOf | src/cpptoml.h:1409-1431 | every value that is read is the spelling of some value |
| TomlEveryText.LinesOf | src/cpptoml.h:1093-1396 | all lines that are read are spelled lines |
| TomlEveryText.Accepts | src/cpptoml.h:1093-1396 | lines are read as given tables if and only if they can be spelled as lines that make these tables; everything else is refused |
| TomlCommented.Commented | src/cpptoml.h:1093-1120 | what is written reads the same with comments behind any of its lines and idle lines anywhere |
| TomlStyle.WrittenStyle | src/cpptoml.h:2191-2451 | a table is written with one tab per level, bare keys where they can be, the fewest escapes, six digits of a fraction, Z for no offset and arrays on one line |
| TomlGrowth.ExecExtends | src/cpptoml.h:1093-1120 | over any lines, whatever has been read is still there at the end and unchanged: values as they were, tables and arrays of tables only longer |
| TomlGrowth.KeyOnce | src/cpptoml.h:1314-1324 | a key that has been read is refused when it comes again with any value, whatever other items stand between |
| TomlGrowth.HeaderAgain | src/cpptoml.h:1146-1219 | a header whose table exists already changes nothing, and is refused if and only if that table is empty or holds a value that is not an array |
| TomlGrowth.HeaderTwice | src/cpptoml.h:1195-1214 | a header that has created its table is refused when it is repeated at once |
| TomlGrowth.HeaderRepeated | src/cpptoml.h:1195-1214 | behind an item that is an array the repeated header is accepted |
| TomlAccepted.DateRunInRange | src/cpptoml.h:1804-1873 | every date that is read has fields that fill their columns |
| TomlAccepted.ValueProper | src/cpptoml.h:1409-1431 | every value that is read is in range, its arrays are of one kind other than boolean, and the lines left are the last of those there were |
| TomlAccepted.ExecAccepted | src/cpptoml.h:1093-1120 | whatever is built from any lines has such values only and no empty array of tables, and no empty key unless a line begins with one in quotes |
| TomlSurvival.ReadWriteRead | src/cpptoml.h:1093-1120 | a table that any text without floating-point values, multi-line strings and inline tables has been read as comes back from being written, in any order of iteration, if and only if it has no empty key and only well-signed dates |
| TomlSurvival.EmptyKeyLost | src/cpptoml.h:1332-1396 | a quoted empty key is accepted, and its table does not come back |
| TomlSurvival.EastLost | src/cpptoml.h:1847-1862 | any date less than an hour east is accepted, and its table does not come back |
| TomlWriter.EscapeString | src/cpptoml.h:2414-2429 | the loop escapes as specified |
| TomlWriter.Writer.WriteTableHeader | src/cpptoml.h:2328-2371 | header line, indentation and end of line |
| TomlWriter.Writer.VisitArray | src/cpptoml.h:2239-2259 | the text of an array |
| TomlWriter.Writer.WriteValues | src/cpptoml.h:2211-2221 | the values one on a line, the last line left open |
| TomlWriter.Writer.WriteTables | src/cpptoml.h:2223-2232 | the tables behind the values, each on lines of its own |
| TomlWriter.Writer.VisitTable | src/cpptoml.h:2191-2235 | exactly the lines of the table are added, with one empty line only at an empty start, and the path stack is restored |
| TomlWriter.Writer.VisitSeries | src/cpptoml.h:2264-2275 | the same for an array of tables |
| TomlWriter.WriteDocument | src/cpptoml.h:2473-2479 | a fresh writer prints the document's lines |
| TomlParser.Parser.ReadLiteral | src/cpptoml.h:1597-1621 | the cursor loop reads what the specification of a literal says and stops where it says |
| TomlParser.Parser.ReadNumber | src/cpptoml.h:1666-1750 | the same for integers |
| TomlParser.Parser.ReadKey | src/cpptoml.h:1332-1396 | the same for keys |
| TomlParser.Parser.ReadValue | src/cpptoml.h:1409-1431 | the same for values |
| TomlParser.Parser.ReadValueArray | src/cpptoml.h:1923-1943 | the same for arrays of scalars, over several lines |
| TomlParser.Parser.ReadObjectArray | src/cpptoml.h:1946-1972 | the same for arrays of arrays |
| TomlParser.Parser.SkipWhitespaceAndComments | src/cpptoml.h:1998-2011 | on to the next line while this one is used up; false at the end of input |
| TomlParser.Parser.ReadTable | src/cpptoml.h:1146-1219 | looking names up while they are read gives the same tables and the same refusals as reading the whole name first |
| TomlParser.Parser.ReadSeries | src/cpptoml.h:1221-1312 | the same for arrays of tables |
| TomlParser.Parser.ReadKeyValue | src/cpptoml.h:1314-1329 | one item: inserted, or refused when present, malformed or followed by other text |
| TomlParser.Parser.ReadAll | src/cpptoml.h:1093-1120 | the loop over the lines is the specification of reading |
| TomlParser.ParseText | src/cpptoml.h:1093-1120 | the parser computes the specified table or fails exactly when it has none |
| Handshake.StrToLDec | src/SubversionHds.cc:98-98 | strtol reads back a decimal numeral |
| HandshakeLaws.ParsePrint | src/SubversionHds.cc:46-142 | every well-formed response, with any runs of white space, is accepted with exactly its version, capabilities, URL and user agent |
| HandshakeLaws.StepProgress | src/SubversionHds.cc:56-135 | one turn moves strictly forward, stays in the buffer, never goes back to an earlier state, and freezes capabilities and URL once they are complete |
| HandshakeLaws.RunProgress | src/SubversionHds.cc:56-135 | the same between any two moments of a run over any buffer |
| HandshakeLaws.AcceptedUrl | src/SubversionHds.cc:86-141 | an accepted handshake has a non-empty URL: the slice of the buffer behind the first colon after the URL's length mark begins, where the reader has left the capabilities, and exactly as long as the whole mark announces |
| HandshakeCuts.CutHandshake | src/SubversionHds.cc:46-142 | the first n characters of a well-formed response are served if and only if they hold the URL and the character behind it and do not end between the colon of the user agent's mark and the character behind the name; then they are read as the response's fields, the user agent empty when its name is not there, and otherwise the answer is 2 with the complaint of the place where they end, or 1 for no characters |
| HandshakeCuts.CutInName | src/SubversionHds.cc:104-126 | every response with a user agent has a first part that holds the URL and is refused |
| HandshakeCuts.LongerBuffer | src/SubversionHds.cc:56-142 | of any buffer with an answer every first part has one, and when it is served it has the same URL |
| HandshakeCuts.NulOutsideStrings | src/SubversionHds.cc:74-77 | a NUL anywhere but in a counted string refuses a well-formed response, whatever follows |
| HandshakeLimits.OneDigitVersion | src/SubversionHds.cc:78-84 | an otherwise well-formed response is read as its fields if and only if its version has one digit |
| HandshakeLimits.WordsBefore | src/SubversionHds.cc:78-84 | words before the opening parenthesis are passed over |
| HandshakeLimits.WordsForAgent | src/SubversionHds.cc:110-112 | words in parentheses where the user agent should be are passed over |
| HandshakeReader.ParseSubversionHds | src/SubversionHds.cc:46-142 | the loop over the buffer computes the specified answer and fields |
| Url.ScanSplits | src/SubversionHds.cc:157-195 | the character loop is splitting at the first five slashes |
| Url.ReadPrinted | src/SubversionHds.cc:150-208 | printing fields the splitter can produce and reading them gives the same fields |
| Url.AcceptedIsSplittable | src/SubversionHds.cc:150-208 | whatever is accepted can be printed and read again without change |
| Url.AnyAuthority | src/SubversionHds.cc:172-206 | for any user, password, host and port the account and the host are what stands behind the last colon of either side of the at-sign, and the port is 21 for svn+ssh and 3690 otherwise |
| Url.ExplicitPort | src/SubversionHds.cc:150-208 | a URL with an explicit port is accepted with the port's text as host and the scheme's port; it reads like the URL without the port if and only if port and host are equal texts |
| Url.PortAsWritten | src/SubversionHds.cc:172-206 | an explicit port of any digits is read as the number it denotes, the other fields kept, if and only if it is the scheme's own port and the host is the same digits |
| Url.SubversionUriCanonicalize | src/SubversionHds.cc:150-208 | the loop computes the specified fields; it answers 2 exactly when something stands between the first two slashes and 1 exactly for an empty URL |
| Router.EncodingKeepsOrder | src/RouterSeletor.cc:57-58 | on 7-bit names the 16-bit encoding does not wrap, is injective and keeps the lexicographic order exactly |
| Router.RangeToIndex | src/RouterSeletor.cc:34-62 | the moving-pointer loop computes the specified interval for any text, and never leaves its eight bytes |
| Router.IntervalEnds | src/RouterSeletor.cc:34-62 | the interval of a range text of up to five characters runs from its left end padded with `-` to its right end padded with `z`, where a left side longer than two reaches into the right end |
| Router.FirstFive | src/RouterSeletor.cc:39-39 | of a longer range text only the first five characters matter |
| Router.HitIsCover | src/RouterSeletor.cc:92-126 | an entry matches exactly the names between its ends unless it is switched off, and leads to its address at its port, or 3690 when it names none |
| Router.RouterSeletor.InitializeManager | src/RouterSeletor.cc:65-117 | defaults, skipped rows, appended elements and the answer |
| Router.RouterSeletor.GetAddress | src/RouterSeletor.cc:120-136 | first enabled hit, else the default; no answer exactly for owners of fewer than two characters |
| Router.ChoiceByName | src/RouterSeletor.cc:92-136 | the selection on the numbers of the rows of a file is the selection on names, where absent keys have their defaults and rows without a range or an address say nothing |
| Router.FirstCoveringEntry | src/RouterSeletor.cc:120-136 | the selection is the first covering entry that is not switched off, or the default when there is none |
| Pipeline.BackendOfHandshake | src/SubversionSession.cc:86-108 | the backend of a well-formed handshake is the first entry of the file that covers its owner and is not switched off, else the default |
| Pipeline.SameOwnersSameBackend | src/SubversionSession.cc:86-108 | two handshakes whose owners begin alike get the same backend, whatever else they say |
| Pipeline.ShortOwner | src/SubversionSession.cc:101-108 | a well-formed handshake whose owner has fewer than two characters is refused with 200042, whatever the routing table |
| Pipeline.MisplacedSlash | src/SubversionSession.cc:95-99 | one with something between the first two slashes of its URL is refused with 210004 and an empty message |
| Pipeline.CutSameBackend | src/SubversionSession.cc:77-108 | a first part of a handshake that is served gets the verdict of the whole |
| Pipeline.PickedForward | src/SubversionSession.cc:101-115 | the backend that is connected to is the one that has been stored |
| ErrorFrame.FrameFits | src/SubversionSession.cc:56-61 | for every 32-bit identifier the frame is never cut short by its limit of length + 64 |
| ErrorFrame.FrameReadsBack | src/SubversionSession.cc:56-61 | read as a ra_svn item the frame is a failure with the same identifier and message and a matching length; a negative identifier makes it no item at all |
| SessionRuns.RunInvariant | src/SubversionSession.cc:43-232 | the invariant that holds in every world of every run |
| SessionRuns.Exclusive | src/SubversionSession.cc:74-232 | at most one pending operation before the relay and one per direction in it, none ever issued while one of its conversation or the same one was pending, no two on one buffer, and the handshake untouched until it is forwarded |
| SessionRuns.WhatTheClientGets | src/SubversionSession.cc:43-209 | what the single write of the greeting took of it, then bytes of one error frame or backend bytes in order, never both; the whole greeting comes first if and only if that write took all of it |
| SessionLosses.CutGreeting | src/SubversionSession.cc:43-72 | for any shorter write of the greeting and any refused handshake there is a run in which the error frame follows the cut greeting |
| SessionRuns.DownwardConservation | src/SubversionSession.cc:187-209 | delivered plus held bytes are the backend's bytes behind its first chunk |
| SessionRuns.UpwardConservation | src/SubversionSession.cc:147-232 | delivered plus held bytes are the client's bytes if and only if the one write of the handshake took all of it; otherwise exactly the unwritten rest is missing |
| SessionLosses.ShortWriteLoses | src/SubversionSession.cc:147-232 | for any routable handshake, any shorter write of it, any first chunk of the backend and any next chunk of the client there is a run, with the whole greeting written, in which the backend gets the cut handshake followed by that chunk |
| SessionRuns.EndedForGood | src/SubversionSession.cc:187-232 | a relay direction that has ended never restarts |
| SessionProgress.EndedByError | src/SubversionSession.cc:187-232 | in every run a direction of the relay has ended if and only if one of its own operations has failed |
| SessionProgress.StopsForAReason | src/SubversionSession.cc:43-185 | before the relay nothing is pending if and only if the greeting or the handshake has failed, the error frame has been written or could not be, or a length mark had no meaning |
| SessionProgress.DownFlows | src/SubversionSession.cc:187-209 | any run whose direction to the client has not failed can go on so that the client gets all that the backend has sent and any further chunks |
| SessionProgress.UpFlows | src/SubversionSession.cc:211-232 | the same towards the backend |
| SessionProgress.Serves | src/SubversionSession.cc:43-232 | for any handshake with a backend, any first chunk of it and any further chunks from both ends in any order there is a run that delivers all of them |
| SessionErrors.RouteIs | src/SubversionSession.cc:86-115 | routing refuses for four causes, each with its identifier and message, and forwards to the backend of the owner otherwise |
| SessionErrors.FrameTellsWhy | src/SubversionSession.cc:86-185 | in every run the client is told an error if and only if one of seven causes has occurred, and it is that cause's identifier and message |
| SessionErrors.ConnectsTo | src/SubversionSession.cc:101-130 | in every run a session connects to the backend of the owner in the handshake that it was sent |
| SessionRuns.ErrorIsTheEnd | src/SubversionSession.cc:56-185 | after an error frame nothing is connected, read or relayed any more |
| SessionRuns.FrameIsAnError | src/SubversionSession.cc:91-184 | an issued frame carries one of the session's two identifiers and one of its messages |
| SessionRuns.FrameIsReadable | src/SubversionSession.cc:56-184 | in every run an issued frame reads as a ra_svn failure with that identifier and message, and nothing is left over |
| SessionHandlers.SubversionSession.ReportError | src/SubversionSession.cc:56-72 | the frame is written into the buffer and its write issued |
| SessionHandlers.SubversionSession.ReadDownstream | src/SubversionSession.cc:86-130 | parsing, splitting and routing inside the handler take the step of the transition system |
| SessionHandlers.SubversionSession.StartSession | src/SubversionSession.cc:43-54 | a fresh session starts in an initial world |
| SessionHandlers.SubversionSession.Complete | src/SubversionSession.cc:74-232 | whatever enabled event occurs, removing the operation, storing its bytes and running its handler is exactly the step of the transition system, so every history of the object is a run |

## Left out

- Getopt.Scanner.GetoptLong: `getopt` and `getopt_long_only` (the `short_too` branches), a null option string or table, option strings that begin with `+` or `-`, POSIXLY_CORRECT, an option whose value is -1 and the texts of diagnostics are not modelled; option letters are non-negative character codes.
- Getopt.Scanner.ScanAll: starts with an index inside the vector; an index behind it is covered by GetoptLong.
- TomlText.ParseValue: floating-point numbers, multi-line strings and inline tables are not modelled; the model fails where the source reads them. The writer never prints the latter two.
- TomlParser.Parser.ReadNumber: integers only; the floating-point forms of these lines fail.
- TomlParser.Parser.ReadValue: floating-point numbers, multi-line strings and inline tables fail, as in TomlText.ParseValue.
- TomlParser.ParseText: texts with floating-point numbers, multi-line strings or inline tables fail where the source reads them.
- TomlSurvival.ReadWriteRead: does not speak of texts with floating-point numbers, multi-line strings or inline tables; floating-point numbers are written with fewer digits than were read.
- TomlReader: messages and line numbers of parse errors; a failed parse is one value. A header without its closing bracket, behind which the source steps past the end of the line, fails.
- TomlParser.Parser.ReadDate: `parse_date` is taken over a run of date characters as a value, not with a cursor; the overflow of an over-long fraction of a second is not modelled. Dates are classified by the lookahead used without std::regex.
- TomlParser.Parser.ReadTable: tables are values and the current table is a path into them, so the pointer `curr_table`, shared ownership and aliasing are not captured.
- TomlWriter.Writer: floating-point values; numbers, dates and booleans reach the stream as finished texts.
- Handshake.Parse: a length mark that is negative or does not fit a long, for which the source's pointer arithmetic and copy have no defined meaning, gives the answer Unspecified.
- HandshakeReader.ParseSubversionHds: says nothing of the code and the fields when the answer is Unspecified, for the same length marks.
- Router.RangeToIndex: characters are codes of unsigned bytes; what a signed `char` does to owners and ranges outside 7-bit text depends on the platform.
- Router.RouterSeletor.InitializeManager: takes the keys of the routing file as given; reading them out of a parsed table by qualified name and exceptions for values of the wrong type are not modelled.
- Session: Boost.Asio, sockets, DNS and shutdown appear only as completions with a byte count or an error; a cancelled operation is one that fails. Logging and the lifetime of the greeting's buffer are left out.
- SessionHandlers.SubversionSession.Complete: excludes handshakes whose answer is Unspecified; the routing table is fixed while a session runs, as in the source after start-up.
- Configuration of the server, process and service handling, `src/main.cc`, `src/TOMLParse.cc`, `src/Daemonize.cc` and logging: plumbing with little logic of its own.
