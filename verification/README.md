# uBridge in Dafny

This project models the stateful parts of uBridge and proves what they keep over all inputs and all
runs. uBridge carries two libraries in its tree, the cxxopts command-line parser and the loguru logger,
and has one concurrent pipeline of its own, from serial devices to a publish socket.

`dafny verify dfyconfig.toml` checks everything.

## Layout

Command line (`include/cxxopts.hpp`)

- `OptionSyntax`: which argv tokens are flags, and which strings name an option. The two regular
  expressions are recognised by hand; lemmas tie the recognisers to the languages of the expressions.
- `IntegerLiterals`, `OptionValues`: parsing a text into an option's value. The digit loop works in
  words of 8, 16, 32 or 64 bits and wraps like cxxopts.
- `OptionParsing`: what a parse means, as functions over the parser's tables, the positional cursor and
  the tokens still to come. `OptionParser` is the parser itself, a class that updates its tables in
  place; each of its methods is proved to do what the functions say. `OptionRegistry` is the class that
  collects the options and builds a parser from them.
- `ArgvRoles`, `ArgvAcceptance`, `ArgvFaults`: the tokens of a command line and their roles; a line is
  accepted exactly if some roles suit it, and refused for its first fault. `ParsedState`, `ArgvRewriting`,
  `RenderRoundTrip`: further theorems about parses.
- `WordWrap`: the help text's wrapper.

Logger (`include/loguru/loguru.cpp`)

- `LogSinks`: callbacks, nested scopes and the cached cutoff as a state machine over events, and the
  theorems about whole runs. `LogHistory`: every line of every output, told from the events alone.
  `Logger` is the class with the globals; each method is one event.
- `ArgvCompaction`: the verbosity flag is taken out of argv in place.
- `ArgumentString`: the escaped argument string, with a decoder.
- `StackCleanup`: the shrinking rewrites of stack traces. `StackPatterns`: which patterns are then gone,
  and which can come back.
- `Preamble`: the preamble assembled in a fixed buffer.

Bridge (`src`, `include/threadsafeQueue.h`, `include/ubridgeClient.h`)

- `ThreadsafeQueue`: the queue class. `Pipeline`: monitor, relay threads and main loop as a state
  machine whose events are the critical sections. `Bridge`: the threads' code over a queue object.

`Outcomes` holds the option and result types.

## Readings and assumptions

- An exception is a failure value that carries what the exception names. The text of messages is not
  modelled.
- `std::hash` is taken to have no collisions, so a hash of `long + short` is that string. Two options can
  still share it (`ab` with short name `c`, and `abc`); the model does what cxxopts does, and
  theorems that need distinct keys say so. `OptionRegistry.WhenKeysAreDistinct` says exactly when they are.
- An unordered map's iteration order is a parameter, and results hold for every order.
- In the ECMAScript grammar `.` matches neither a line feed nor a carriage return, so `--name=text` with
  one of them in the text is not a flag. `[[:alnum:]]` is read in the C locale.
- The second alternative of the integer expression never decides a match, because the first one already
  matches `0` and `0x0`.
- Counters (`size_t`, `unsigned`) are unbounded. Integer option values are not.
- A FATAL message ends the program, so runs of the logger contain none.
- The comment in `include/threadsafeQueue.h:46` says that new items are dropped when the queue is full.
  The code raises the bound on every push, so in the bridge no push is ever dropped; this is what is proved.
- `isalpha` in the user's locale, the verbosity reader and the JSON parser and printer are parameters and
  may be any functions. Only where a round trip through JSON is claimed is `parse` required to invert `dump`.
- `SplitMessage` without a `#` gives the whole message twice, since `npos + 1` is zero.
- A device whose serial number has fewer than four characters makes `assignChannelID` throw in the monitor
  thread, which ends the program; such an admission is not an event of a run.

## Model

| member | source | states |
|---|---|---|
| OptionSyntax.ClassifyDecidesGrammar | include/cxxopts.hpp:1563-1564 | a token reads as `--`, `-letters`, `--name` or `--name=text` exactly when it is that form's text and its parts have the required shape |
| OptionSyntax.ClassesAreThese | include/cxxopts.hpp:1563-1567 | the character classes of the expressions, by their members |
| OptionSyntax.SplitDecidesSpecifier | include/cxxopts.hpp:1716-1755 | a specifier is accepted with certain names if and only if the names can be spelled as flags, are not both absent, and the specifier is a writing of them with some blanks |
| OptionSyntax.SpecifierRoundTrip | include/cxxopts.hpp:1566-1567 | writing two names as a specifier, with any blanks after the comma, and registering it gives the names back |
| IntegerLiterals.ParseInteger | include/cxxopts.hpp:595-661 | the digit loop in a machine word, the range test and the negation accept a literal exactly when its digits are digits of the base, no step visibly wraps, and the signed residue of its magnitude is in the type's range; that residue is stored |
| IntegerLiterals.MatchDecidesLiteral | include/cxxopts.hpp:523-524 | a text matches with certain groups if and only if it is the sign, the prefix and the digits that the groups say, where whatever can start with the prefix does |
| IntegerLiterals.DigitsAreThese | include/cxxopts.hpp:623-636 | a character is a digit of a base exactly if it is among its digits, in either case, and its value is its place there |
| IntegerLiterals.WrittenLiteralIsExact | include/cxxopts.hpp:531-661 | acceptance and value of a sign, a prefix and digits of magnitude below 2^w, without reference to the matcher: -2^(w-1) is accepted and 2^(w-1) is not for a signed type, no negative literal is for an unsigned one |
| IntegerLiterals.NumeralRoundTrip | include/cxxopts.hpp:595-661 | writing any number below 2^w in either base and either case and parsing it gives the number, exactly if the type has it |
| IntegerLiterals.LiteralIsExact | include/cxxopts.hpp:531-661 | a literal whose magnitude is below 2^w is accepted exactly when its signed value fits the type (and has no sign for an unsigned one), and then stored as that value; this covers the least negative value and `-0` |
| IntegerLiterals.AcceptedIsExactIffSmall | include/cxxopts.hpp:642-660 | any accepted value agrees with the literal modulo 2^w, and equals it if and only if the magnitude is below 2^w |
| IntegerLiterals.OverflowIsMissed | include/cxxopts.hpp:642-646 | the wrap test misses an overflow: `300` is accepted as an eight-bit unsigned value, as 44 |
| OptionValues.ParseVector | include/cxxopts.hpp:768-779 | the `getline` loop appends one parsed item for each comma-separated piece, in order, or fails with the first piece that does not parse |
| OptionValues.ParseValue | include/cxxopts.hpp:672-801 | a scalar is replaced by the parsed text, a vector keeps its items and gets the new ones behind them |
| OptionValues.PiecesRoundTrip | include/cxxopts.hpp:768-779 | pieces without commas, each followed by one, are read back as they were, empty ones included |
| OptionValues.ListRoundTrip | include/cxxopts.hpp:768-779 | a list with commas between its pieces is read back as it was, unless the last piece is empty |
| OptionValues.PiecesMakeText | include/cxxopts.hpp:768-779 | for every text, the pieces have no commas, and putting the commas back gives the text, but for a last comma |
| OptionValues.ScalarIsRead | include/cxxopts.hpp:731-762 | the texts that denote each scalar value, both ways round, and the error for any other text |
| OptionValues.VectorIsRead | include/cxxopts.hpp:768-779 | a vector has the values of its pieces, each at the place of its piece, or the error of the first piece that has none |
| OptionParser.Parser.ParseOption | include/cxxopts.hpp:1780-1792 | the option's slot gets the parsed value and one more count, and the log one entry; nothing else changes |
| OptionParser.Parser.ParseDefault | include/cxxopts.hpp:1771-1776 | the slot gets its default, uncounted and unlogged |
| OptionParser.Parser.CheckedParseArg | include/cxxopts.hpp:1796-1828 | an option with an implicit value takes no token, any other takes the next one or fails for lack of it, and the cursor moves by what was taken |
| OptionParser.Parser.ParseLetters | include/cxxopts.hpp:1952-1980 | the loop over a cluster's letters, with its early errors, as one function of the tables and the tokens that follow |
| OptionParser.Parser.ConsumePositional | include/cxxopts.hpp:1839-1865 | the loop over positional slots gives the token to the first that can take it and advances the cursor as specified |
| OptionParser.Parser.MainLoop | include/cxxopts.hpp:1902-2020 | the cursor loop terminates, never passes the end of argv, and leaves the state, the unmatched tokens and the position after `--` that the specification gives |
| OptionParser.Parser.DefaultsLoop | include/cxxopts.hpp:2022-2032 | the loop over the option map, in whatever order, as the specification's fold |
| OptionParser.Parser.RemainingLoop | include/cxxopts.hpp:2034-2049 | the tokens after `--` go to positional slots up to the first refusal, and are unmatched from there on |
| OptionParser.Parser.FinaliseAliases | include/cxxopts.hpp:2057-2070 | both names of every option are entered, and every option gets a slot |
| OptionParser.Parser.Parse | include/cxxopts.hpp:1900-2055 | a fresh parser returns exactly what the specification of a parse gives, results and errors alike |
| OptionRegistry.Options.AddOption | include/cxxopts.hpp:1716-1767 | registering enters an option under its names, refuses a name that is taken (leaving a short name behind if only the long one was), and keeps the map well formed when it succeeds |
| OptionRegistry.Options.Parse | include/cxxopts.hpp:1892-1897 | parsing with a registry is parsing with its map, positional list and mode |
| OptionRegistry.NamesCanBeSpelled | include/cxxopts.hpp:1563-1567 | every name a registry holds is recognised as a flag when it is written as one |
| OptionRegistry.WhenKeysAreDistinct | include/cxxopts.hpp:1028 | storage keys are distinct if and only if no long name of an option without a short name is another option's two names run together |
| ArgvRewriting.EqualsIsSeparateValue | include/cxxopts.hpp:1942-2015 | wherever the main loop reads it, `--name=text` may be replaced by `--name` and `text`, with the same result or error, for an option without implicit value (or an unknown one in strict mode), in every surrounding argv |
| ArgvRewriting.ClusterIsSingles | include/cxxopts.hpp:1942-1980 | wherever the main loop reads it, `-abc` may be replaced by `-a`, `-b`, `-c`, with the same result or error, if all letters but the last have implicit values or are unknown |
| ArgvRewriting.AcceptedClusterIsSingles | include/cxxopts.hpp:1942-1980 | whatever its letters, if the parse with `-abc` succeeds then the parse with `-a`, `-b`, `-c` gives the same, and all letters but the last have implicit values or are unknown |
| ArgvRewriting.RefusedCluster | include/cxxopts.hpp:1969-1979 | a cluster with a letter before the last one that wants a text is refused in every state and before every argv tail |
| ArgvRewriting.PrefixDecidesState | include/cxxopts.hpp:1902-2020 | the state in which the loop reaches a position, or that it never does, depends on the tokens before the position only |
| ArgvRewriting.ImplicitValueLeavesNextToken | include/cxxopts.hpp:1818-1821 | the condition on `--name=text` is needed: whatever its type and state, an option with an implicit value takes an attached text, but is given its implicit value and moves on by one token when the text is separate |
| ArgvRewriting.ClusterNeedsImplicitValues | include/cxxopts.hpp:1969-1979 | for the flags the condition is needed: where the first letter wants a text and can parse the second flag, the cluster is refused while the loop over the separate flags goes on behind the second one |
| ArgvRoles.EveryTokenHasARole | include/cxxopts.hpp:1899-2055 | in strict and lenient mode, a successful parse gives every token one role that suits it (a flag is followed by its value exactly when it needs one, an unknown flag is let through only in lenient mode), and the roles alone determine the log and the unmatched tokens; the positional cursor never moves back, a scalar slot takes one token, a container takes all later ones, and nothing is taken after a refusal |
| ArgvAcceptance.SuitingRolesAreAccepted | include/cxxopts.hpp:1899-2055 | the converse: if roles suit a command line (each token its role, positional tokens the first slot from the cursor on that is open, the given texts and the missing defaults their types), the parse succeeds with exactly the log and the unmatched tokens that the roles tell |
| ArgvAcceptance.AcceptedExactlyIfRolesSuit | include/cxxopts.hpp:1899-2055 | with distinct keys, a command line is accepted if and only if some roles suit it |
| ArgvAcceptance.GivenTextsMakeValues | include/cxxopts.hpp:1111-1134 | with suiting roles, every option, even one that shares its long name, is counted once for each text the tokens give it, and holds what those texts leave when parsed in order |
| ArgvFaults.EveryRefusalHasACause | include/cxxopts.hpp:1899-2055 | a refused command line has a good start followed by the first fault, and the error is the one that fault calls for: an unknown flag, a missing or misplaced argument, a text that is no value, bad syntax, a positional name that is not registered, or a default that is no value |
| ArgvRoles.LeftoverIsSubsequence | include/cxxopts.hpp:1934-1937 | the unmatched tokens keep their order in argv |
| ArgvRoles.ConsumeAtFreeSlot | include/cxxopts.hpp:1837-1865 | a positional token goes to the first slot from the cursor on that is a container or was never given |
| ArgvRoles.BreakLosesNothing | include/cxxopts.hpp:2034-2049 | breaking at the first refused token after `--` gives what offering every token would give |
| ParsedState.LogRebuildsState | include/cxxopts.hpp:1111-1134 | with distinct keys, for every option whose long name no other option has: its count is the number of its log entries and its value is what those entries leave when replayed into fresh storage, or into the default where that came first; this holds with `--` too |
| ParsedState.ReplayFillsContainer | include/cxxopts.hpp:768-779 | replaying texts into a container leaves the values of all their pieces, in order |
| ParsedState.ReplayKeepsLast | include/cxxopts.hpp:672-762 | replaying texts into a scalar leaves the value of the last one, and needs all of them to be values |
| ParsedState.ShortAndLongAgree | include/cxxopts.hpp:2057-2070 | an option's short and long name find the same slot, and never fail |
| ParsedState.UnregisteredNameIsAbsent | include/cxxopts.hpp:1257-1292 | a name that is not registered counts zero and is not found |
| ParsedState.DefaultsArePointwise | include/cxxopts.hpp:2022-2032 | visiting every name applies each default once, to exactly the options that were not given, though an option is visited under both its names |
| ParsedState.DefaultMeansNotGiven | include/cxxopts.hpp:1156-1162 | with distinct keys, `has_default()` holds exactly for the options that declare a default and were not given before `--`; in a run without `--`, that were never given |
| ParsedState.DefaultThenValueAfterSeparator | include/cxxopts.hpp:2022-2042 | with `--` a container can be defaulted and counted at once, and holds the items of both |
| ParsedState.IterationOrderIsIrrelevant | include/cxxopts.hpp:2022-2070 | any two iteration orders of the option map give the same success, values, log, unmatched tokens and lookups |
| RenderRoundTrip.ParseUndoesRender | include/cxxopts.hpp:1982-2008 | with distinct keys, parsing `--name=value` for a list of string options and values without line breaks gives that list as `arguments()` and leaves nothing unmatched, provided the declared defaults parse |
| WordWrap.FormatDescription | include/cxxopts.hpp:1615-1689 | every line break of the output has `start` spaces behind it, and cutting it there gives the kept lines and the last line, in order; for every description these give it back with what was dropped, that is a space at each soft break and, before each line break of its own, the text since the last flush together with the break; no line exceeds 2*width+3 characters, a word is cut only where a line has no space, and a line is due at every (width+2)nd character |
| WordWrap.DefaultIsShown | include/cxxopts.hpp:1622-1634 | the default stands in brackets behind the description, an empty one as two quotes, and a false boolean one not at all |
| LogSinks.RunKeepsInv | include/loguru/loguru.cpp:1487-1542 | in every run, with callbacks added and removed at any moment, each callback's indentation is the number of open scopes that were opened since it was registered at a verbosity it accepts, and also the number of unclosed braces in its own output, which indents each of its lines |
| LogHistory.HistoryDecides | include/loguru/loguru.cpp:899-1003 | in every run, the events alone decide the live callbacks in order, every line of every callback (those events since its registration that it accepts, at four columns for each open scope it saw opened, up to a hundred), every line on stderr, and the open scopes |
| LogHistory.EveryMessageArrives | include/loguru/loguru.cpp:1346-1396 | in every run, each callback has as many messages as were logged since it was registered and are not above its verbosity, and stderr as many as were not above its verbosity at the time; a failed removal is one at ERROR |
| LogSinks.ScopeSeenByItsSinks | include/loguru/loguru.cpp:1487-1542 | a callback that is there from before a scope opens until after it closes, and accepts it, sees `{` and `}` equally indented with a well-nested word between them |
| LogSinks.GuardAgreesWithSinks | include/loguru/loguru.cpp:899-1003 | after every run, the macro guard skips a message exactly when it is above OFF and neither stderr nor any callback would take it |
| LogSinks.MaxIsMaximum | include/loguru/loguru.cpp:899-905 | the cached value is the maximum over the live callbacks, or OFF |
| LogSinks.SinkSeesClose | include/loguru/loguru.cpp:1514-1530 | closing a scope steps back the callbacks that counted it, and finds a newer callback at zero, so its guard changes nothing |
| Logger.Logger.AddCallback | include/loguru/loguru.cpp:907-918 | one registration event, with the cutoff recomputed |
| Logger.Logger.RemoveCallback | include/loguru/loguru.cpp:971-984 | one removal event: the first callback with the id goes, or an error is logged, and the result says whether the id was registered |
| Logger.Logger.RemoveAllCallbacks | include/loguru/loguru.cpp:986-996 | one event that leaves no callback and the cutoff at OFF |
| Logger.Logger.OnCallbackChange | include/loguru/loguru.cpp:899-905 | the loop leaves the maximum verbosity in the cache |
| Logger.Logger.LogMessage | include/loguru/loguru.cpp:1346-1396 | stderr and every callback that accepts the verbosity get the line at their own indentation, no other does |
| Logger.Logger.Log | include/loguru/loguru.hpp:1027-1029 | one guarded message event |
| Logger.Logger.OpenScope | include/loguru/loguru.cpp:1487-1512 | one scope-opening event, which keeps the invariant |
| Logger.Logger.CloseScope | include/loguru/loguru.cpp:1514-1542 | one scope-closing event, which keeps the invariant |
| ArgvCompaction.ParseArgs | include/loguru/loguru.cpp:468-504 | unless a check aborts, argv becomes its first element, the kept arguments in order, a null at the new argc, and beyond it what was there before; the verbosity is the last one read |
| ArgvCompaction.CompactionIs | include/loguru/loguru.cpp:497-503 | what stands at each place of the compacted argv |
| ArgvCompaction.NoFlagIsKept | include/loguru/loguru.cpp:473-499 | no kept argument is the verbosity flag |
| ArgvCompaction.AttachedTextIsRead | include/loguru/loguru.cpp:473-499 | the flag with a text attached that does not start with a letter sets the verbosity to that text, less one `=`, and is dropped |
| ArgvCompaction.NextArgumentIsRead | include/loguru/loguru.cpp:479-499 | the flag alone takes the next argument, and aborts if there is none |
| ArgvCompaction.OtherArgumentIsKept | include/loguru/loguru.cpp:473-499 | any argument that does not start with the flag, or goes on with a letter, is kept |
| ArgvCompaction.SecondRunChangesNothing | include/loguru/loguru.cpp:468-504 | running again over the result keeps every argument and the verbosity |
| ArgumentString.EscapeInto | include/loguru/loguru.cpp:545-565 | the branches of the loop append the escape of each character |
| ArgumentString.BuildArguments | include/loguru/loguru.cpp:602-608 | the loop over argv builds the escaped arguments with one space between them |
| ArgumentString.DecodeUndoesJoined | include/loguru/loguru.cpp:532-608 | the argument string decodes to the original arguments, empty ones included |
| ArgumentString.JoinedIsInjective | include/loguru/loguru.cpp:602-608 | no two argument lists have the same argument string |
| ArgumentString.JoinedIsPrintable | include/loguru/loguru.cpp:545-565 | the argument string contains no character below 0x20 |
| ArgumentString.OnlySeparatorsAreBare | include/loguru/loguru.cpp:545-608 | every quote, blank and control character of the arguments has its backslash, so the bare spaces are those between the arguments |
| ArgumentString.EscapesOfC | include/loguru/loguru.cpp:545-565 | the escapes are those of C |
| StackCleanup.ReplaceAll | include/loguru/loguru.cpp:1145-1148 | the replacement loop terminates, with the length of the text as its measure |
| StackCleanup.DoReplacements | include/loguru/loguru.cpp:1137-1150 | pairs are applied in order, those that would not shrink the text are skipped |
| StackCleanup.SkippedExactlyIfNoShorter | include/loguru/loguru.cpp:1139-1143 | a pair leaves every text alone exactly if its replacement is no shorter than its pattern |
| StackCleanup.PatternIsGone | include/loguru/loguru.cpp:1145-1148 | when a pair is done its pattern does not occur, the text is no longer than before, and unchanged exactly if the pattern did not occur |
| StackCleanup.RewritingIsSound | include/loguru/loguru.cpp:1137-1150 | the result is reached from the text by single replacements of listed pairs, is no longer, and lacks the last pair's pattern |
| StackPatterns.GonePatternIsAbsent | include/loguru/loguru.cpp:1137-1150 | a pattern occurs in no result if some pair takes it away (its own, or one whose pattern it contains) and every later pair keeps it away |
| StackPatterns.OneTurnKeepsExactly | include/loguru/loguru.cpp:1145-1148 | "keeps away" is exact for a single replacement: it is a condition on the two patterns and the replacement, and fails if and only if some text without the pattern gets it by one replacement |
| StackPatterns.DonePairKeepsExactly | include/loguru/loguru.cpp:1145-1148 | over all of a pair's replacements, no text without the pattern ends with it if and only if the pattern contains the pair's own or is kept away, unless every replacement that brings it about leaves the pair's own pattern overlapping it |
| StackPatterns.ShortReplacementSettles | include/loguru/loguru.cpp:1133-1134 | that exception does not arise when the replacement has at most one character, as in the pairs that delete a calling convention |
| StackPatterns.FirstOfTwoIsGone | include/loguru/loguru.cpp:1137-1150 | for two pairs in turn, the first one's pattern is gone from every result if and only if it contains the second one's or is kept away by it, with the same exception |
| StackPatterns.PatternReturns | include/loguru/loguru.cpp:1137-1150 | in a list of pairs a pattern does come back if a replacement that brings it about can be written down so that earlier pairs do not touch the text before it, nor the others the text after it |
| StackPatterns.WithoutClashGone | include/loguru/loguru.cpp:1137-1150 | a pair's pattern is gone from every result if every later pair that is applied has a non-empty replacement that cannot be laid over the pattern in agreement |
| StackPatterns.BuiltInPatternIsGone | include/loguru/loguru.cpp:1125-1135 | of the fixed built-in patterns exactly the last one is gone from every result |
| StackPatterns.LoneWordIsReplaced | include/loguru/loguru.cpp:1137-1150 | pairs whose patterns tell each other apart behind their underscores replace a pattern that stands alone, and nothing else |
| StackPatterns.BuiltInResults | include/loguru/loguru.cpp:1125-1135 | what the fixed built-in pairs make of a text with one of their patterns in it |
| StackPatterns.EarlierPatternCanReturn | include/loguru/loguru.cpp:1125-1135 | deleting a calling convention puts an earlier built-in pattern together: `std::__1__cdecl ::` ends as `std::__1::` |
| StackCleanup.Cleanups.AddStackCleanup | include/loguru/loguru.cpp:889-897 | only pairs that will be applied are stored |
| Preamble.PrintFields | include/loguru/loguru.cpp:1239-1326 | for any fields and any buffer, the guarded chain leaves the enabled fields run together, cut to the size less one, and terminated |
| Preamble.AppendField | include/loguru/loguru.cpp:1297-1300 | one link of the chain keeps the buffer equal to the truncated text, whether or not the text has already outgrown it |
| Preamble.ReaderSeesPrefix | include/loguru/loguru.cpp:1239-1326 | reading the buffer as a C string gives the text, or its longest prefix that leaves room for the terminator |
| Preamble.HeaderFits | include/loguru/loguru.cpp:635-643 | with any fields switched on, the header fits its buffer whole |
| Preamble.FullHeader | include/loguru/loguru.cpp:1239-1266 | the header with every field switched on, and the size of its buffer |
| ThreadsafeQueue.TQueue.Push | include/threadsafeQueue.h:42-51 | the bound rises by one, and the item is taken if and only if the queue was within its bound before |
| ThreadsafeQueue.TQueue.Pop | include/threadsafeQueue.h:66-77 | the oldest item is returned and removed |
| ThreadsafeQueue.TQueue.TryPop | include/threadsafeQueue.h:80-90 | as `pop`, but an empty queue is reported and nothing changes |
| Pipeline.NothingLostOrReordered | src/ubridge.cpp:66-93 | under every interleaving, the publications followed by the queue are one publication for each line relayed, in order, under the channel of its port and without the channel key it came with; the queue never exceeds its bound |
| Pipeline.PublicationIsItsLine | src/ubridge.cpp:78-93 | the k-th publication is the k-th relayed line that takes a key: its payload has exactly the keys of that line but `channelID`, with the values they have there, and its topic is `/sensors/`, the name of the device first admitted at the port less six characters, `_`, and the last four of its serial number |
| Pipeline.QueueHoldsTheRest | include/threadsafeQueue.h:42-51 | published and queued messages together are as many as lines were relayed, and the queue is within its bound |
| Pipeline.RelayRunsUntilError | src/uDevice.cpp:140-190 | in every run, a port's lines can be relayed if and only if a device was admitted there and its relay has not ended on an error |
| Pipeline.EachDeviceInOrder | src/uDevice.cpp:147-171 | each device's messages are published in the order it sent them, none lost and none twice |
| Pipeline.DeadPortStaysSilent | src/uDevice.cpp:176-187 | after a relay ended on an error, no message from its port is relayed, because the device stays in the map and the monitor starts no second relay |
| Pipeline.SplitUndoesFrame | include/ubridgeClient.h:231-240 | a client recovers topic and payload of a published message if and only if the topic has no `#` |
| Pipeline.WithoutSeparator | include/ubridgeClient.h:231-240 | a message without `#` is both topic and data |
| Pipeline.ClientsGetWhatDevicesSent | src/uStreamer.cpp:58-66 | every published message is the one expected at its place, and its frame decodes to its topic and payload exactly if the topic has no `#` |
| Bridge.Bridge.constructor | src/ubridge.cpp:60-73 | the bound is set before any thread runs |
| Bridge.Bridge.AdmitDevice | src/uSerial.cpp:132-156 | one admission event: a known port changes nothing, a new one gets a channel and a relay |
| Bridge.Bridge.RelayOne | src/uDevice.cpp:153-163 | one relay event, and whether a JSON exception was thrown |
| Bridge.Bridge.RelayBatch | src/uDevice.cpp:147-165 | a batch is a run of relay events for at most a hundred waiting lines, and stops early only after the first line that is refused |
| Bridge.Bridge.EndRelay | src/uDevice.cpp:176-187 | one error event |
| Bridge.Bridge.PublishOne | src/ubridge.cpp:78-93 | one publication event |

## Left out

- DonePairKeepsExactly: is silent on patterns that a pair brings about only in overlap with its own
  pattern, after replacements of two or more characters; whether they survive then depends on the text
  around them, as `ContextDecides` shows on `aaab` -> `aa` and the pattern `aabb`. The single replacement
  is settled for all patterns by `OneTurnKeepsExactly`.
- FirstOfTwoIsGone: has the same exception.
- LogRebuildsState: says nothing about an option that shares its long name, or lacks one as another
  option does, because the log does not tell such options apart; `GivenTextsMakeValues` covers them from
  the tokens.
- The spellings of the standard string types in the built-in list of stack cleanups, which differ between
  compilers; lists with any further pairs are covered by `GonePatternIsAbsent` and `PatternReturns`.
- Floating-point options, `std::optional`, `std::stringstream` fallbacks and values bound to a caller's variable.
- The long name that `OptionValue` points to, which only feeds an error message, and the texts of all exceptions.
- The help text apart from descriptions: groups, the option column, usage line and the wide-character build.
- Concurrent logging: scopes nest properly only within one thread, so runs of the logger are sequential.
- Scope objects as objects: the live ones are a stack in the logger, which is how they nest in one thread; a moved-from scope is not modelled.
- Device objects as objects: a device is a value in the bridge's map, and its relay thread is a method of the bridge.
- Waiting in `pop`: the call is modelled from when an item is there.
- FATAL messages, fatal handlers, signal handlers and stack capture.
- Log files, syslog, flushing, terminal colours, clocks and thread names; a callback is the lines it is sent.
- The regular expressions that tidy a stack trace after the replacements.
- The error-context stack: a linked list whose operations say nothing beyond their bodies.
- The formatting of preamble fields: `PrintFields` holds for any texts.
- Sockets, serial ports and JSON itself; a port is a source of lines and errors.
- Request handling, device queries, statistics and device listing, and the counters they report.
- Read timeouts, which end a batch without an effect on the queue.
- Probing a port (`isUthing`) and the exceptions of the device constructor; admission starts with a device that answered.
- Counter wrap-around of `size_t`.
