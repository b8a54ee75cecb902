# Proofs about Gaim's harder algorithms

This project models, in Dafny, eight pieces of Gaim (the instant messenger that became Pidgin) and of the GNU code
bundled with it, and proves what they promise for all inputs and over all runs.

* **Plural expressions** (`PluralSyntax`, `PluralTables`, `PluralMachine`, `PluralSoundness`, `PluralCompleteness`,
  `PluralLexer`, `PluralParser`, `PluralPrinter`, `PluralEval`). The bison tables of the bundled gettext are entered as
  they are. The stack machine that reads them is sound and complete for the precedence grammar of ISO C99 sections 6.5.3
  to 6.5.15, and the array-based driver, lexer and semantic actions do what that machine does. A printer with minimal
  parentheses is the partner of lexer and parser.
* **Message lookup** (`MessageCatalog`, `TranslationCache`, with `CStrings` and `Modulo`). Open addressing with double
  hashing and binary search agree on every catalog, and the translation cache, stamped with a generation, is coherent
  over all runs of `bindtextdomain`, `bind_textdomain_codeset`, `textdomain` and lookups.
* **Locale fallback** (`LocaleMask`, `LocaleName`, `LocaleFiles`, `LocaleList`, `DomainFinder`). Locale names as in
  section 8.2 of the XBD volume of POSIX.1-2017, with modifiers and CEN syntax, are taken apart in place; file names are
  built in buffers of computed size; the memoised recursion makes one node for each name with exactly the generalisations
  as successors, and the search for a locale reaches its own file.
* **getopt** (`GetoptDecode`, `GetoptWalk`, `GetoptMeaning`, `Getopt`). The permuting scan over `argv` with its static
  variables keeps the three-index invariant, leaves the stable partition, and refines an ordered scan. `GetoptMeaning`
  says what every option that can be written is reported as.
* **The buddy list** (`BlistTree`, `BlistState`, `BlistDerived`, `BlistAccounts`, `BuddyList`). Links, counters, the
  priority buddy of each contact and the hash index are derived data; every operation keeps all of them right:
  `Valid` says so for tree, counters and priorities, `OnlineOk` for the online counts, `Indexed` for the index,
  `TimersOk` for the timers. Where the code keeps one of them only on a condition, the contract says which, as an
  if-and-only-if. `OnlineOk` is two things, which the contracts keep apart where they differ: the counts (`Counted`), and
  that whoever is up is on a connected account (`UpIsLive`).
* **File transfers** (`FileTransfer`). Byte counts, file position and the bytes on the wire over any partial writes.
* **Conversation windows** (`ConvWindows`). Positions, counts, the mutually recursive destruction, and when a
  conversation is used again.
* **Command markup** (`CmdMarkup`). The in-place removal of a command from a marked-up line, on UTF-8 bytes.

Code that changes things step by step is modelled by methods over arrays and fields, each proved against a
specification function or predicate; the lemmas are about those. Nodes, windows and conversations are numbers that name
records in maps; the links between them are the fields of these records. `Wrappers` holds the one `Option` type.

## What turned out not to hold

* A permuting scan that ends with a missing argument after it skipped non-options is not repeated by a scan in order:
  the second scan takes a non-option as the argument (`RescanFindsArgument`). `PermuteRefinesOrder` gives the exact
  condition.
* The node of an X/Open locale name is among its own successors if and only if the name has a modifier and no codeset: the
  mask without the X/Open flag spells the same name (`ModifierReachesItself`).
* Looking for a locale a second time finds another node, with fewer files to fall back on, if and only if the name has a
  modifier or a codeset that is not in normal form; one file that is no longer reached is given for each (`FindTwice`).
* Moving a buddy that is signing off to another contact, removing it, alone or with its contact, deleting it because its
  contact changes groups, merging its contact, or disconnecting its account makes the online counts wrong, because the
  code then tests for two of the three states that are counted (`PlaceBuddy`, `RemoveBuddy`, `RemoveContact`,
  `AddContact`, `MergeContact`, `RemoveAccount`).
* A sign-on report for a buddy that is up already on an account that is not connected counts the buddy twice
  (`UpdatePresence`).
* A buddy put into a group, or renamed there, under a name and account that another buddy of the group has takes over
  the other's entry in the index (`AddBuddy`, `MergeContact`, `RenameBuddy`); so does one without a name whose contact
  changes groups (`AddContact`).
* A chat with the name of a person leads to a second conversation with that person if it comes first in the list
  (`NewConversation`).
* A failed first read or write makes `bytes_sent - 1` wrap around and marks the transfer as done for a moment; the
  callback then cancels it (`Read`, `Write`, `TransferCb`).
* A send whose size exceeds its file does not always fill up with zeros: after a partial write of a short read the place
  in the file is wrong, so bytes are lost or go twice (`ShortFiles`). `OrderlyMeaning` gives the exact condition.
* An unclosed `<` in a command stops the stripping of its command word (`StripRight`).

## Model

| member | source | states |
|---|---|---|
| `PluralTables.TablesEncodeGrammar` | trunk/intl/plural.c:252-302 | For every state that can be reached and every token, the packed tables `yypact`, `yydefact`, `yytable` and `yycheck` give exactly the action of an operator-precedence parser for the grammar. |
| `PluralTables.OperatorAction` | trunk/intl/plural.c:262-302 | After an expression an operator is shifted if and only if it is at least as strong as the state demands; otherwise the state's own rule is reduced. |
| `PluralTables.OperandAction` | trunk/intl/plural.c:262-302 | Where an operand must come, exactly `!`, a number, `n` and `(` are shifted and every other token is an error. |
| `PluralTables.GotoFacts` | trunk/intl/plural.c:252-302 | The goto tables lead from every state over an expression to the state that holds it. |
| `PluralMachine.StepDecreases` | trunk/intl/plural.c:713-976 | Every step of the parser uses up input or shrinks the weight of the stack, so the driver ends on every input. |
| `PluralSoundness.StepKeeps` | trunk/intl/plural.c:713-976 | The invariant over all 28 states: a step finds its right-hand side on the stack, keeps the tokens that stack and input stand for, and accepts only a tree of the precedence grammar with exactly those tokens. |
| `PluralSoundness.RunSound` | trunk/intl/plural.c:619-976 | Soundness of whole runs: an accepted tree obeys the precedence grammar, its yield is the whole token string, and the parser is never stuck. |
| `PluralCompleteness.TreeIsPushed` | trunk/intl/plural.c:713-976 | From any state that wants an operand, the tokens of any tree of the grammar are parsed into that tree on the stack, unless the stacks are too small for it. |
| `PluralCompleteness.ParseYield` | trunk/intl/plural.c:550-976 | Completeness: every tree of the grammar is parsed back from its own tokens, and stack overflow is reported for exactly the trees whose depth does not fit. |
| `PluralCompleteness.AcceptanceIsGrammar` | trunk/intl/plural.c:550-1106 | For every token string: the parser accepts it with a tree if and only if that tree is the one the precedence grammar assigns to it and it fits the stacks. |
| `PluralCompleteness.Unambiguous` | trunk/intl/plural.c:252-260 | The precedence grammar assigns at most one tree to a token string. |
| `PluralLexer.ParseArgs.ReadNumber` | trunk/intl/plural.c:1201-1213 | The digit loop of the lexer reads the longest run of digits and its value in unsigned word arithmetic. |
| `PluralLexer.ParseArgs.ReadSymbol` | trunk/intl/plural.c:1215-1313 | Each operator character gives its token, value and rest of the text; everything else, a lone `=`, `&` or `\|` included, gives an error token. |
| `PluralLexer.ParseArgs.Yylex` | trunk/intl/plural.c:1176-1318 | The lexer reads exactly the next token, advances over it, and leaves the value untouched when the token has none. |
| `PluralParser.NoErrorTransition` | trunk/intl/plural.c:978-1106 | No state shifts the error token, so error recovery can only unwind the stack. |
| `PluralParser.Recover` | trunk/intl/plural.c:1055-1106 | The error path ends, with return value 1, from any stack. |
| `PluralParser.Grow` | trunk/intl/plural.c:653-706 | The stacks are twice as long then, or YYMAXDEPTH if that is less, and hold what they held. |
| `PluralParser.NewState` | trunk/intl/plural.c:619-711 | Pushing a state succeeds, with room for the next one, unless the stacks are at their greatest depth. |
| `PluralParser.Decide` | trunk/intl/plural.c:713-790 | The next action is that of the tables for the state and the lookahead; the lookahead is read only if the state does not reduce without it. |
| `PluralParser.ReduceBy` | trunk/intl/plural.c:825-976 | A reduction over the state and value arrays leaves what the stack machine leaves; rule 1 stores the result. |
| `PluralParser.ParseStep` | trunk/intl/plural.c:619-976 | One turn of the array-based driver is one step of the stack machine, or reports the outcome of its whole run. |
| `PluralParser.Yyparse` | trunk/intl/plural.c:550-1106 | The driver over its arrays returns 0 with the expression of the grammar's tree, 2 on overflow and 1 otherwise, exactly as the stack machine does for the tokens of the text; a text that is an expression printed, with any blanks and any end mark, gives 0 and that expression. |
| `PluralPrinter.ConcIsMinimal` | trunk/intl/plural.c:252-260 | Among all trees of the grammar that denote an expression, the printer's has the fewest tokens. |
| `PluralPrinter.DigitsValue` | trunk/intl/plural.c:1201-1213 | The decimal digits of every word are read back as that word. |
| `PluralPrinter.LexRendering` | trunk/intl/plural.c:1176-1318 | Tokens in which operands and operators alternate, written with any spaces and tabs between them and ended by the end of the text, a NUL, a semicolon or a newline with anything behind it, are lexed back to the same tokens. |
| `PluralPrinter.PrintParse` | trunk/intl/plural.c:550-1318 | Round trip: every expression printed with minimal parentheses, with any spaces and tabs in it, and followed by nothing or by a NUL, a semicolon or a newline and anything else, is lexed and parsed back to itself. |
| `PluralPrinter.WrittenParses` | trunk/intl/plural.c:550-1318 | The same for a text of which it is only known that it is written so: the stack machine accepts its tokens with a tree of that expression. |
| `PluralPrinter.TextIsWritten` | trunk/intl/plural.c:1176-1318 | Conversely, every text without an error token is its tokens' spellings with spaces and tabs between them, ended by the end of the text, a NUL, a semicolon or a newline. |
| `PluralEval.NoValueMeaning` | trunk/intl/dcigettext.c:1009-1086 | Evaluation has no value if and only if a division or remainder by zero is among the expressions that are evaluated; one in an operand that `\|\|`, `&&` or `?:` skips does no harm. |
| `PluralEval.SafeDivisorsHaveValue` | trunk/intl/dcigettext.c:1009-1086 | So an expression whose divisors are all non-zero numbers has a value for every count. |
| `PluralEval.WordSums` | trunk/intl/dcigettext.c:1054-1057 | Sum and difference undo each other for all words, also where they wrap. |
| `PluralEval.WordsWrap` | trunk/intl/dcigettext.c:1054-1055 | A sum wraps after the greatest word of 64 bits. |
| `PluralEval.WordProducts` | trunk/intl/dcigettext.c:1048-1049 | The product is the repeated sum of words. |
| `PluralEval.Division` | trunk/intl/dcigettext.c:1050-1053 | Quotient times divisor plus remainder is the dividend, and the remainder is less than the divisor; there is neither for divisor zero. |
| `PluralEval.Comparisons` | trunk/intl/dcigettext.c:1058-1069 | Exactly one of `<`, `==` and `>` is 1, and the other three operators are their complements. |
| `PluralEval.Conditions` | trunk/intl/dcigettext.c:1077-1082 | A negated condition swaps the branches of `?:`; 0 selects the second and 1 the first. |
| `PluralEval.Connectives` | trunk/intl/dcigettext.c:1035-1041 | `&&` and `\|\|` are conditional expressions, so the right operand counts only where it is looked at, and De Morgan's law holds with it. |
| `PluralEval.StartIsUnique` | trunk/intl/dcigettext.c:967-1004 | Each string of a translation starts at one place, which makes the result of the lookup unique. |
| `PluralEval.PluralLookup` | trunk/intl/dcigettext.c:967-1004 | The variant returned is the one the plural expression selects, the first one if the expression's value is not below the number of plurals, or the first if there are too few strings; no byte past the translation is read. |
| `CStrings.StrCmpTransitive` | trunk/intl/dcigettext.c:735-760 | The comparison of C strings is transitive, strictly so if either step is strict. |
| `CStrings.StrCmpMeaning` | trunk/intl/dcigettext.c:735-760 | The first character that differs decides the order of two C strings, and the one that ends first comes first. |
| `MessageCatalog.HashString` | trunk/intl/hash-string.h:38-59 | The loop computes the hash step by step and the upper four bits of the result are clear. |
| `MessageCatalog.HashStepMeaning` | trunk/intl/hash-string.h:48-57 | One step: the sum of the shifted hash and the character, its top four bits cleared and folded into bits 4 to 7. |
| `MessageCatalog.HashOfShort` | trunk/intl/hash-string.h:38-59 | An ASCII string of up to five characters is filed under just its characters as digits of base 16. |
| `MessageCatalog.ProbeMeaning` | trunk/intl/dcigettext.c:701-732 | The slots inspected: from the hash modulo the size on, each time one plus the hash modulo the size less two further. |
| `MessageCatalog.NextSlot` | trunk/intl/dcigettext.c:728-731 | The step of the probe loop, written as a comparison and two subtractions, is addition modulo the table size and never overflows. |
| `MessageCatalog.PrimeProduct` | trunk/intl/dcigettext.c:701-732 | A prime divides no product of two smaller positive numbers. |
| `MessageCatalog.ProbesDiffer` | trunk/intl/dcigettext.c:701-732 | With a prime size the first `hash_size` probes are all different. |
| `MessageCatalog.ProbesCover` | trunk/intl/dcigettext.c:701-732 | So every slot is inspected within `hash_size` steps. |
| `MessageCatalog.AnswerIsUnique` | trunk/intl/dcigettext.c:697-761 | A sorted catalog has at most one answer for an identifier. |
| `MessageCatalog.HashSearch` | trunk/intl/dcigettext.c:699-734 | The hash table branch ends within as many steps as there are slots and finds the index of the identifier if and only if it is in the catalog. |
| `MessageCatalog.BinarySearch` | trunk/intl/dcigettext.c:735-760 | The binary search branch finds the index of the identifier if and only if it is in the catalog. |
| `MessageCatalog.FindMsg` | trunk/intl/dcigettext.c:671-761 | Whichever branch runs, the answer is the same: hashing and binary search agree on every catalog. |
| `TranslationCache.TransCmpIsOrder` | trunk/intl/dcigettext.c:246-272 | `transcmp` is a strict total order on the keys of the cache, and 0 only for equal keys. |
| `TranslationCache.InsertBinds` | trunk/intl/bindtextdom.c:300-319 | Inserting a binding in sorted order changes the binding of its own domain only. |
| `TranslationCache.ReplaceBinds` | trunk/intl/bindtextdom.c:132-212 | Replacing one changes the binding of its own domain only and keeps the list sorted. |
| `TranslationCache.Gettext.SetBindingValues` | trunk/intl/bindtextdom.c:96-341 | The sorted list refines a map: exactly the one domain is rebound to the values given, and the generation moves on if and only if its binding changed. |
| `TranslationCache.Gettext.BindTextdomain` | trunk/intl/bindtextdom.c:346-352 | The directory given is the one bound and returned; the cache stays coherent. |
| `TranslationCache.Gettext.BindTextdomainCodeset` | trunk/intl/bindtextdom.c:357-363 | The codeset given is the one bound and returned; the cache stays coherent. |
| `TranslationCache.Gettext.Textdomain` | trunk/intl/textdomain.c:79-137 | The default domain becomes the one named, `messages` for an empty name; every call that names one starts a new generation. |
| `TranslationCache.Gettext.SearchLocales` | trunk/intl/dcigettext.c:552-620 | The walk over the colon-separated locales returns what the first catalog with a translation holds; `C` and `POSIX` end it. |
| `TranslationCache.SearchMeaning` | trunk/intl/dcigettext.c:552-620 | A translation is found if and only if some locale of the list supplies it, with no `C` or `POSIX` before it and no catalog of an earlier locale that has the identifier; empty names, and in a privileged process names with a slash, are passed over. |
| `TranslationCache.DirectoryMeaning` | trunk/intl/dcigettext.c:473-530 | The directory searched: the default without a binding, an absolute one as it is, a relative one below the current directory, none if that is unknown. |
| `TranslationCache.Gettext.Dcigettext` | trunk/intl/dcigettext.c:402-668 | Cache coherence: after any run of bindings, default domains and lookups, a lookup, cached or not, returns what the uncached path returns now: the text found up to its first NUL, or its variant for `n`; if nothing is found `msgid1`, or `msgid2` for a plural lookup with `n` other than 1. |
| `LocaleMask.PopCounts` | trunk/intl/l10nflist.c:150-161 | For every 16-bit mask the shifting trick gives the true number of bits. |
| `LocaleMask.SubmasksMember` | trunk/intl/l10nflist.c:321-325 | The loop over the masks visits exactly the consistent sub-masks. |
| `LocaleMask.SubmasksDescend` | trunk/intl/l10nflist.c:321-325 | It visits them in strictly decreasing order. |
| `LocaleMask.SubmasksBound` | trunk/intl/l10nflist.c:293-296 | There are at most two to the power of the mask's bit count of them. |
| `LocaleName.NormalizeIsIdempotent` | trunk/intl/l10nflist.c:347-386 | Normalising a codeset name that is normal changes nothing. |
| `LocaleName.NormalIsKept` | trunk/intl/l10nflist.c:347-386 | A name of digits and lower-case letters is kept, with `iso` before it if it has no letter. |
| `LocaleName.CaseIsIgnored` | trunk/intl/l10nflist.c:347-386 | Names that differ only in the case of letters and in which characters other than letters and digits they have have the same normal form. |
| `LocaleName.PunctuationIsIgnored` | trunk/intl/l10nflist.c:358-383 | A character that is neither a letter nor a digit can be left out. |
| `LocaleName.Utf8IsNormalized` | trunk/intl/l10nflist.c:347-386 | So `UTF-8` and `utf_8` are both `utf8`. |
| `LocaleName.Latin1IsNormalized` | trunk/intl/l10nflist.c:347-386 | And `8859-1` is `iso88591`. |
| `LocaleName.NormalizeCodeset` | trunk/intl/l10nflist.c:347-386 | The two loops allocate exactly as much as the normal form needs and write it with its NUL. |
| `LocaleName.XpgExplodes` | trunk/intl/explodename.c:52-192 | Every X/Open locale name with non-empty parts is taken apart into exactly its parts, with the mask of those present. |
| `LocaleName.XpgSpells` | trunk/intl/l10nflist.c:223-265 | The mask of a name's parts, without the audience flag and the normal form, spells the name itself. |
| `LocaleName.XpgNameIsReached` | trunk/intl/l10nflist.c:321-337 | The node made for an X/Open name has the exact name as its own or among its generalisations, also when it has a modifier and the node itself is spelled with `+`. |
| `LocaleName.XpgSpellsItself` | trunk/intl/l10nflist.c:223-265 | The node made for an X/Open name has the name itself if and only if the name has no modifier and its codeset, if any, is in normal form. |
| `LocaleName.ModifierReachesItself` | trunk/intl/l10nflist.c:321-337 | The node of an X/Open name has its own file name among its generalisations if and only if the name has a modifier and no codeset: two masks spell it then. |
| `LocaleName.CenExplodes` | trunk/intl/explodename.c:124-176 | Every CEN locale name with non-empty parts is taken apart into exactly its parts. |
| `LocaleName.CenNameIsTop` | trunk/intl/l10nflist.c:223-265 | The node made for a CEN name is spelled exactly as the name. |
| `LocaleName.FindEnd` | trunk/intl/explodename.c:40-49 | The loops over the name stop at the first of the characters that can end a part. |
| `LocaleName.ExplodeFront` | trunk/intl/explodename.c:83-120 | Language, territory and codeset are cut off in place, with the mask and pointers of those present. |
| `LocaleName.ExplodeBack` | trunk/intl/explodename.c:122-176 | Modifier or audience and the CEN parts after it are cut off in place. |
| `LocaleName.ExplodeName` | trunk/intl/explodename.c:52-192 | Overwriting separators with NULs in the name leaves pointers that show exactly the parts, the mask of those present, and the normal form of the codeset. |
| `LocaleFiles.ArgzCount` | trunk/intl/l10nflist.c:76-90 | The count of NUL-separated directories. |
| `LocaleFiles.ArgzNext` | trunk/intl/l10nflist.c:123-141 | Each call steps from one directory to the next, and ends after the last. |
| `LocaleFiles.ArgzStringify` | trunk/intl/l10nflist.c:100-114 | All NULs but the last become the separator, so the directories are joined. |
| `LocaleFiles.BuildName` | trunk/intl/l10nflist.c:190-265 | The buffer holds the file name made of the directories, the parts in the mask and the file, and the name with its NUL never exceeds what was allocated. |
| `LocaleList.ExpectedMeaning` | trunk/intl/l10nflist.c:321-338 | The entries of a node are exactly the sub-masks of its mask in each of its directories that mix no parts of the X/Open and the CEN syntax and have no two forms of the codeset, without the mask itself if there is one directory. |
| `LocaleList.ExpectedFits` | trunk/intl/l10nflist.c:293-296 | They and the terminator fit in the array sized by the directory count and the population count. |
| `LocaleList.ExpectedIsClosed` | trunk/intl/l10nflist.c:321-338 | What a successor expects is expected already, so the recursion adds no new names. |
| `LocaleList.PlaceDecides` | trunk/intl/l10nflist.c:267-284 | In a decreasing list the early exit of the search misses nothing. |
| `LocaleList.L10nList.Search` | trunk/intl/l10nflist.c:267-284 | The search finds a node of the name if and only if there is one, and else the place where it belongs. |
| `LocaleList.L10nList.Insert` | trunk/intl/l10nflist.c:306-315 | The list stays strictly decreasing, with one node for each name. |
| `LocaleList.L10nList.Fill` | trunk/intl/l10nflist.c:317-338 | The successors written are the nodes of the wanted names, in order, within the array; the names of the list grow by exactly those. |
| `LocaleList.L10nList.Make` | trunk/intl/l10nflist.c:164-341 | The memoised recursion ends; it returns the one node of the name, and a new node has as successors exactly the nodes of its generalisations in decreasing order, each named after its mask. |
| `DomainFinder.FindDomain` | trunk/intl/finddomain.c:49-177 | The node of a locale: the one of exactly that file if there is one, else the one its exploded name, or its alias's, asks for, which is made with all it can be replaced by if it is new. |
| `DomainFinder.NodeReachesExact` | trunk/intl/finddomain.c:49-177 | The node made for an X/Open name has the file of exactly that name as its own or among its successors. |
| `DomainFinder.NormalIsLost` | trunk/intl/finddomain.c:90-118 | A node made for a name whose codeset is not in normal form, and with exactly its file, has no successor with the file of the normal form. |
| `DomainFinder.PlusIsLost` | trunk/intl/finddomain.c:90-118 | A node made for a name with a modifier, and with exactly its file, has no successor with the file of language, territory and modifier after a plus sign. |
| `DomainFinder.FindTwice` | trunk/intl/finddomain.c:49-177 | Looking for an X/Open locale twice: the second search makes nothing and finds the node of exactly that file. It is the node found first if and only if there is no modifier and the codeset, if any, is in normal form; and if and only if every file reached from the first node is reached from the second. Otherwise the file of the modifier with a plus sign, or else of the normal codeset, is reached from the first node and not from the second. |
| `GetoptDecode.MatchedMeaning` | trunk/src/getopt.c:450-494 | The loop over the long options: the first exact match wins, otherwise an abbreviation must be unique. |
| `GetoptDecode.FindLong` | trunk/src/getopt.c:454-475 | The loop with its flags computes that match. |
| `GetoptDecode.DecodeNext` | trunk/src/getopt.c:486-645 | A call that takes no argument from the next element does not look at it; a missing argument would have been taken from the next element. |
| `GetoptDecode.DecodeCall` | trunk/src/getopt.c:435-645 | The branches for long options, abbreviations, short clusters and their arguments give the decoded event. |
| `GetoptMeaning.LongOptionMeaning` | trunk/src/getopt.c:428-538 | A long option written in full or shortened unmistakably is reported with its index and value, its flag stored, and its argument taken from behind an equals sign or, if required, from the next element. |
| `GetoptMeaning.UnknownLongOption` | trunk/src/getopt.c:450-485 | A name that no long option has, and that not exactly one begins with, is reported with a question mark. |
| `GetoptMeaning.UnwantedArgument` | trunk/src/getopt.c:491-515 | So is an option with an argument it does not take. |
| `GetoptMeaning.MissingLongArgument` | trunk/src/getopt.c:516-528 | One that lacks a required argument at the end gives a question mark, or a colon if the option string begins with one. |
| `GetoptMeaning.ShortEnters` | trunk/src/getopt.c:428-432 | An element of short options is read from behind its dash. |
| `GetoptMeaning.ShortOptionMeaning` | trunk/src/getopt.c:566-645 | A short option is reported as its character; without an argument the rest of the element follows, with one the rest is the argument, or the next element if the rest is empty and the argument required, or none if it is optional; a missing one gives a question mark or a colon and the character in `optopt`. |
| `GetoptMeaning.UnknownShortOption` | trunk/src/getopt.c:569-593 | A character that the option string does not have is reported with a question mark and stored in `optopt`, and the rest of the element goes on. |
| `GetoptMeaning.NonOptionMeaning` | trunk/src/getopt.c:358-381 | What does not begin with a dash, and a single dash, is left for the caller. |
| `GetoptMeaning.DashesMeaning` | trunk/src/getopt.c:382-398 | Two dashes count as an option and leave all behind them for the caller. |
| `GetoptMeaning.InOrderMeaning` | trunk/src/getopt.c:412-426 | A scan that returns all elements in order reports the options of a permuting scan and between them each non-option, as option 1 with the element as its argument. |
| `Getopt.ExchangeBlocks` | trunk/src/getopt.c:236-256 | The three copies through a buffer swap the two neighbouring blocks. |
| `Getopt.Scanner.Exchange` | trunk/src/getopt.c:236-256 | The skipped non-options and the options scanned after them change places, and the indices follow. |
| `Getopt.Scanner.SkipNonOptions` | trunk/src/getopt.c:358-381 | At an element boundary the three-index invariant holds, everything from `optind` on is untouched, and `optind` is at an option or the end. |
| `Getopt.Scanner.EndOfOptions` | trunk/src/getopt.c:383-399 | `--` is taken like an option and all that follows like non-options. |
| `Getopt.Scanner.Initialise` | trunk/src/getopt.c:332-354 | The first call sets the indices up for an untouched vector. |
| `Getopt.Scanner.Finish` | trunk/src/getopt.c:401-411 | At EOF the vector is the stable partition of options before non-options and `optind` is at the first non-option. |
| `Getopt.Scanner.TakeOption` | trunk/src/getopt.c:430-645 | One option is reported, and the elements or characters left strictly decrease. |
| `Getopt.Scanner.Call` | trunk/src/getopt.c:314-646 | Every call keeps `first_nonopt <= last_nonopt <= optind <= argc`, a permutation of the vector and the part not scanned untouched; a call that is not EOF strictly decreases what is left. |
| `Getopt.Scanner.Drain` | trunk/src/getopt.c:314-646 | A caller's loop ends, with all events of a scan of the original vector. |
| `GetoptWalk.StablePartition` | trunk/src/getopt.c:236-256 | The vector that results is the stable partition of the arguments into options and non-options. |
| `GetoptWalk.WalkEnds` | trunk/src/getopt.c:383-411 | How a scan can end, and when an argument can be missing. |
| `GetoptWalk.RescanAgrees` | trunk/src/getopt.c:314-646 | Scanning in order what the permuting scan put first gives the same events. |
| `GetoptWalk.RescanFindsArgument` | trunk/src/getopt.c:486-645 | If an argument was missing and non-options follow, the second scan takes one of them as the argument, and the events differ. |
| `GetoptWalk.PermuteRefinesOrder` | trunk/src/getopt.c:314-646 | Refinement, with its exact condition: rerunning in REQUIRE_ORDER mode on the permuted vector gives the same options, arguments and final `optind` if and only if no required argument was missing at the end while non-options were skipped. |
| `Getopt.ScanTwice` | trunk/src/getopt.c:314-646 | The same for the two scans over the real array and static variables. |
| `BlistTree.UnlinkedTree` | trunk/src/blist.c:1241-1247 | Unlinking a node by its neighbours' pointers leaves a proper tree, with the node taken out of one list. |
| `BlistTree.LinkedTree` | trunk/src/blist.c:833-847 | Linking a loose node between its new neighbours leaves a proper tree, with the node in one list. |
| `BlistTree.OneHome` | trunk/src/blist.c:60-75 | A node is in the list of its parent and in no other. |
| `BlistState.BestIsUnique` | trunk/src/blist.c:124-159 | A contact has at most one priority buddy: the first, or with `last_match` the last, of the least score on a connected account. |
| `BlistState.BestIsOnline` | trunk/src/blist.c:139-157 | With one account score and an offline score above the two others together, the priority buddy is online if and only if some buddy on a connected account is. |
| `BlistState.BestIsAvailable` | trunk/src/blist.c:139-157 | Among those alike in being online, it is available if and only if one of them is, if being away scores more than being idle. |
| `BlistState.BestIsActive` | trunk/src/blist.c:139-157 | Among those alike in both, it is not idle if and only if one of them is not. |
| `BlistState.BestByAccount` | trunk/src/blist.c:139-157 | With all preferences 0 no buddy on a connected account has a lesser account score. |
| `BlistState.BestOfEquals` | trunk/src/blist.c:144-157 | Of buddies alike in everything the first is taken, or the last if the preference says so. |
| `BlistState.BestWithout` | trunk/src/blist.c:1264-1269 | Removing a buddy that is not the priority buddy leaves the priority buddy right, so it need not be recomputed. |
| `BlistState.TallyMark` | trunk/src/blist.c:1694-1696 | When a buddy begins to count, one more in its contact and, if it is the contact's first, one more in its group is right for all counters. |
| `BlistState.TallyUnmark` | trunk/src/blist.c:1740-1742 | When it ceases to count, one less in its contact and, if it was the last, one less in its group is right for all counters. |
| `BlistState.TallyLeave` | trunk/src/blist.c:1249-1260 | The same when the buddy leaves its contact. |
| `BlistState.TallyJoin` | trunk/src/blist.c:849-859 | The same when it joins one. |
| `BlistState.BesideLeave` | trunk/src/blist.c:1249-1260 | When the counters of one contact are too high by some number, they are too high by one more after a counted buddy has left it without being counted out, and all others are right. |
| `BlistState.IndexFinds` | trunk/src/blist.c:1515-1533 | With the index right, a key finds a buddy if and only if that buddy is in the group under that name and account. |
| `BlistState.IndexPut` | trunk/src/blist.c:861-866 | Entering a buddy keeps the index right if and only if nobody has its key in the group. |
| `BlistState.IndexRenamed` | trunk/src/blist.c:390-408 | Renaming keeps the index right if and only if the new key is free or its own. |
| `BlistState.IndexMove` | trunk/src/blist.c:999-1014 | A buddy that changes groups takes its key along if the key is free there. |
| `BlistState.KeyStaysFree` | trunk/src/blist.c:1001-1038 | While the buddies of one group move, the keys of those that have yet to move are as free in the other group as they were. |
| `BlistState.MatchesAreAll` | trunk/src/blist.c:1535-1557 | The result of the search holds exactly the buddies of that account and normalised name. |
| `BlistState.MatchesInOrder` | trunk/src/blist.c:1535-1557 | They come in the order of their groups. |
| `BlistState.FirstOfMatches` | trunk/src/blist.c:1490-1513 | Looking for one buddy finds the first of all matches. |
| `BlistDerived.Departs` | trunk/src/blist.c:1241-1260 | Tree, counters and priorities of all other contacts when a buddy leaves its contact. |
| `BlistDerived.Arrives` | trunk/src/blist.c:833-859 | The same when a buddy arrives. |
| `BlistDerived.ContactGone` | trunk/src/blist.c:1179-1223 | Freeing an empty contact leaves all derived state right. |
| `BlistDerived.BesideGone` | trunk/src/blist.c:1179-1223 | When a contact with an online count that is too high goes, the counts left are right if and only if it was too high by nothing. |
| `BlistDerived.IndexArrives` | trunk/src/blist.c:815-866 | Moving a buddy keeps the index right if and only if nobody else in the group has its key. |
| `BlistDerived.NamelessClash` | trunk/src/blist.c:1001-1038 | If the index is right after a contact has changed groups, no buddy of it without a name has come where its key was taken. |
| `BlistDerived.LeavingMiscounts` | trunk/src/blist.c:788-800 | Moving a buddy that is signing off to another contact makes the online counts wrong. |
| `BlistDerived.MergeFree` | trunk/src/blist.c:1088-1122 | A buddy that moved has not taken the key of one that is still to move. |
| `BlistDerived.MergeClash` | trunk/src/blist.c:1088-1122 | If the index is right after the merge, none of the keys of those that came was taken. |
| `BlistDerived.MergedCounts` | trunk/src/blist.c:1088-1122 | If the online counts are right after the merge, none of those that came was signing off. |
| `BlistDerived.OnlineFlips` | trunk/src/blist.c:263-328 | The online counters follow a buddy that comes online or goes offline. |
| `BlistDerived.CountedAgain` | trunk/src/blist.c:302-312 | Counting a buddy that is counted already makes the online counts wrong. |
| `BuddyList.BuddyList.Unlink` | trunk/src/blist.c:1241-1247 | The pointer statements take the node out of its list and change no other. |
| `BuddyList.BuddyList.LinkAfter` | trunk/src/blist.c:833-839 | The pointer statements put a loose node right after a sibling. |
| `BuddyList.BuddyList.LinkFirst` | trunk/src/blist.c:840-847 | The pointer statements make a loose node the first child. |
| `BuddyList.BuddyList.ComputePriority` | trunk/src/blist.c:124-159 | The loop stores the unique priority buddy of the contact, or none if no buddy is on a connected account. |
| `BuddyList.BuddyList.TakeOut` | trunk/src/blist.c:1241-1260 | A buddy leaves its contact: only the contact's own priority may be wrong, and only if the buddy was it; all counters stay right but the contact's online count, which becomes one too high if the buddy is signing off. |
| `BuddyList.BuddyList.RemoveBuddy` | trunk/src/blist.c:1225-1296 | Exactly the buddy goes from list, index and records, with its contact if that is empty then; tree, counters, priorities, timers and index are right, and the online counts if and only if it was not signing off. |
| `BuddyList.BuddyList.RemoveContact` | trunk/src/blist.c:1179-1223 | The buddies go one by one, the last takes the contact along through the mutual recursion, which ends; nothing else changes, index and timers stay right, and the online counts if and only if none of the buddies was signing off. |
| `BuddyList.BuddyList.NewNode` | trunk/src/blist.c:570-639 | A new group, contact, buddy or chat is in no list and leaves all derived state right. |
| `BuddyList.BuddyList.FindGroup` | trunk/src/blist.c:1559-1572 | The first group of the name, if any. |
| `BuddyList.BuddyList.AddGroup` | trunk/src/blist.c:1124-1177 | The group moves, or comes, to the place after `node` or to the front; the other groups keep their order. |
| `BuddyList.BuddyList.GroupNew` | trunk/src/blist.c:943-963 | The listed group of the name, or a new one. |
| `BuddyList.BuddyList.AddChat` | trunk/src/blist.c:672-745 | A chat comes to the place asked for, in the group of `node`, the one given or the one named Chats, and both of the groups' counters follow. |
| `BuddyList.BuddyList.RemoveChat` | trunk/src/blist.c:1298-1336 | Exactly the chat goes, and its group's counters follow. |
| `BuddyList.BuddyList.Reindex` | trunk/src/blist.c:999-1040 | While a contact changes groups, each of its buddies takes its key along or, if it is found there, is deleted; exactly those whose key was free stay, unless one without a name, which is never found, takes a key from somebody. |
| `BuddyList.BuddyList.MoveContact` | trunk/src/blist.c:989-1086 | A contact that changes groups keeps the buddies whose keys were free, and goes itself if none is left; the index stays right if and only if no buddy without a name comes where its key is taken, and the online counts if and only if no deleted buddy was signing off. |
| `BuddyList.BuddyList.AddContact` | trunk/src/blist.c:965-1086 | A contact comes to the place asked for, to the group of `node`, the one given or the one named Buddies; tree, counters, priorities and timers are right, and index and online counts under the same two exact conditions. |
| `BuddyList.BuddyList.PlaceBuddy` | trunk/src/blist.c:785-868 | A buddy goes to its new contact and place: the index stays right if and only if nobody else in the group has its key, and the online counts if and only if it is not signing off or stays in its contact. |
| `BuddyList.BuddyList.AddBuddy` | trunk/src/blist.c:747-874 | The buddy ends up in the contact of `node` if that is a buddy, in the one given or in a new one, with tree, counters, priorities and timers right, and index and online counts right under the same two exact conditions. |
| `BuddyList.BuddyList.MergeContact` | trunk/src/blist.c:1088-1122 | All buddies of a contact come, in order, after `node` or to the end of the other contact, and their contact goes with the last; the index stays right if and only if none of their keys is taken there, and the online counts if and only if none of them is signing off. |
| `BuddyList.BuddyList.UpdatePresence` | trunk/src/blist.c:295-328 | The buddy is signing on or off and has a timer, and priority and index are right. The online counts stay right if and only if this is not a sign-on report for a buddy that is up already on an account that is not connected; and buddies that are up stay on connected accounts if and only if a buddy signing on is on one. |
| `BuddyList.BuddyList.PresenceTimeout` | trunk/src/blist.c:263-293 | The timer settles the buddy; the counters follow, and the priority buddy, which is not recomputed, is still the right one. |
| `BuddyList.BuddyList.Settle` | trunk/src/blist.c:263-328 | If nothing else happens every timer fires once and every buddy is then online or offline. |
| `BuddyList.BuddyList.UpdateStatus` | trunk/src/blist.c:238-261 | The status changes and the priority is right again. |
| `BuddyList.BuddyList.UpdateIdle` | trunk/src/blist.c:345-359 | The idle time changes and the priority is right again. |
| `BuddyList.BuddyList.RenameBuddy` | trunk/src/blist.c:390-414 | The buddy has the new name, and the index stays right if and only if nobody else in the group has it. |
| `BuddyList.BuddyList.FindBuddyInGroup` | trunk/src/blist.c:1515-1533 | With the index right, the buddy found is the one listed in that group under that account and normalised name, and none is found if and only if there is none or the name is empty. |
| `BuddyList.BuddyList.FindBuddy` | trunk/src/blist.c:1490-1513 | The loop over the groups finds the first match. |
| `BuddyList.BuddyList.FindBuddies` | trunk/src/blist.c:1535-1557 | The loop over the groups returns all matches, in group order. |
| `BlistAccounts.BuddyStep` | trunk/src/blist.c:1690-1699 | One buddy of the account is visited: counters and the priorities of the other contacts are right for the new state of the visit. |
| `BlistAccounts.ChatStep` | trunk/src/blist.c:1705-1710 | One chat of the account is visited: both counts of its group follow. |
| `BlistAccounts.MidwayContact` | trunk/src/blist.c:1700-1706 | A visited contact with its best buddy chosen anew, or left alone because no buddy of it was concerned, is right for the new set of accounts. |
| `BlistAccounts.OnlineEnd` | trunk/src/blist.c:1734-1744 | After an account has gone the online counts are right if and only if none of its buddies in the list was signing off. |
| `BuddyList.BuddyList.VisitBuddy` | trunk/src/blist.c:1691-1699 | The statements for one buddy. |
| `BuddyList.BuddyList.VisitBuddies` | trunk/src/blist.c:1689-1700 | The loop over the buddies of a contact visits each of them once and tells whether any was of the account. |
| `BuddyList.BuddyList.VisitContact` | trunk/src/blist.c:1688-1706 | The loop over one contact, with its recompute flag. |
| `BuddyList.BuddyList.VisitAll` | trunk/src/blist.c:1684-1713 | The three nested loops visit every node of the list exactly once. |
| `BuddyList.BuddyList.AddAccount` | trunk/src/blist.c:1674-1714 | When an account comes all counters, priorities, the index and the timers are right for the new set of accounts, and no buddy changes. |
| `BuddyList.BuddyList.RemoveAccount` | trunk/src/blist.c:1716-1769 | When an account goes exactly its listed buddies are cleared and all counters, priorities, the timers and the index are right; the online counts stay right if and only if none of its listed buddies was signing off, and buddies that are up are on connected accounts if and only if those of it outside the list were offline. |
| `FileTransfer.SendRunMeaning` | trunk/src/ft.c:714-801 | For every sequence of partial writes, the bytes that go are the lesser of the file and what the writes before the first failure take, and the transfer is done if and only if they take it all. |
| `FileTransfer.SendEnds` | trunk/src/ft.c:753-801 | A peer that takes something every time gets the whole file. |
| `FileTransfer.FullSteps` | trunk/src/ft.c:755-757 | A peer that takes all it is given gets 4096 bytes each time: the send is done after as many writes as that takes, and not before. |
| `FileTransfer.OrderlyMeaning` | trunk/src/ft.c:753-801 | For every sequence of partial writes and every length of the file: what goes is the file and zeros after it, whatever the file holds, if and only if the place in the file and `bytes_sent` are the same, or both past its end, at every write that takes something. |
| `FileTransfer.FullIsOrderly` | trunk/src/ft.c:753-801 | They are if every write takes all it is given. |
| `FileTransfer.LongIsOrderly` | trunk/src/ft.c:753-801 | They are if the file is long enough. |
| `FileTransfer.ShortFiles` | trunk/src/ft.c:767-781 | They are not for a file of ten bytes announced as twenty when five bytes go first, which loses five bytes, or fifteen, which sends five twice. |
| `FileTransfer.ReceiveRunMeaning` | trunk/src/ft.c:685-751 | For every sequence of reads, the bytes received are what comes before the first failure, bounded by the stream and the size; the transfer is done if and only if the size is known and all of it came. |
| `FileTransfer.Transfer.SetSize` | trunk/src/ft.c:593-602 | Setting the size of a running transfer keeps the counts right if and only if it was not known and is beyond what has gone, or does not change. |
| `FileTransfer.Transfer.Read` | trunk/src/ft.c:685-712 | The status becomes done by an unsigned comparison, which a failed first read passes too; an end of the stream before that is an error. |
| `FileTransfer.Transfer.Write` | trunk/src/ft.c:714-734 | The bytes accepted go out; the status becomes done by an unsigned comparison, which a failed first write passes too. |
| `FileTransfer.Transfer.PutOut` | trunk/src/ft.c:767-781 | The bytes at the place go out, zeros for those the file lacks; the place goes back by what did not go as if all had been read, which after a short read is not where the bytes that went end, and not before the beginning. |
| `FileTransfer.Transfer.TakeIn` | trunk/src/ft.c:744-752 | What was read is appended to the file. |
| `FileTransfer.Transfer.Account` | trunk/src/ft.c:784-801 | The two counts follow modulo the word and a transfer that is done ends. |
| `FileTransfer.Transfer.TransferCb` | trunk/src/ft.c:736-801 | After every callback `bytes_sent + bytes_remaining` is the size, what went is the file up to `bytes_sent` and the position is there; the transfer ends as done if and only if `bytes_sent` has reached the size, and a failed first write ends as cancelled after all. |
| `FileTransfer.Transfer.BeginTransfer` | trunk/src/ft.c:803-821 | The file is opened, empty for a receive, and the watcher is set; otherwise the transfer is cancelled. |
| `FileTransfer.Transfer.Start` | trunk/src/ft.c:833-874 | The counts start at the size and 0. |
| `FileTransfer.Transfer.End` | trunk/src/ft.c:876-914 | Only a transfer that is done ends as done; any other is cancelled. |
| `FileTransfer.Transfer.SendAll` | trunk/src/ft.c:736-801 | Over a whole send the peer has the bytes at the places that the file took, which are the file up to `bytes_sent` if the file is long enough, and the file with zeros after it if place and count agree at every write. What it has at the end is a beginning of the file if and only if the file is as long as the size. |
| `FileTransfer.Transfer.ReceiveAll` | trunk/src/ft.c:736-801 | Over a whole receive the file is the beginning of the peer's stream, and is complete if and only if the transfer ended as done. |
| `ConvWindows.MovedMeaning` | trunk/src/conversation.c:529-574 | A moved conversation comes to stand before the one that was at the place, or at the end, and the others keep their order. |
| `ConvWindows.MovedBack` | trunk/src/conversation.c:529-574 | Moving it back undoes the move. |
| `ConvWindows.PlacedAgain` | trunk/src/conversation.c:262-276 | Renumbering a window's list makes windows and conversations agree again. |
| `ConvWindows.Conversations.UpdateIndexes` | trunk/src/conversation.c:262-276 | Every conversation of the window gets its place, and nothing else changes. |
| `ConvWindows.Conversations.NewWindow` | trunk/src/conversation.c:278-293 | A new window is empty and last. |
| `ConvWindows.Conversations.RemoveConversation` | trunk/src/conversation.c:493-527 | Exactly the conversation at the index leaves its window, the others are renumbered, and a window without conversations is gone. |
| `ConvWindows.Conversations.DestroyWindow` | trunk/src/conversation.c:295-338 | The mutual recursion ends; exactly the window and its conversations are gone, and nothing else has changed. |
| `ConvWindows.Conversations.DestroyConversation` | trunk/src/conversation.c:864-1032 | Exactly the conversation is gone from all lists, found in its window by its stored place, and the window too if it was its last. |
| `ConvWindows.Conversations.AddConversation` | trunk/src/conversation.c:459-491 | The conversation leaves the window it was in and is last in the new one; it is in exactly one window and the index returned is its place. |
| `ConvWindows.Conversations.MoveConversation` | trunk/src/conversation.c:529-574 | The window's list is the moved list, and places are right. |
| `ConvWindows.Conversations.FindConversation` | trunk/src/conversation.c:1381-1424 | The loop finds the first conversation of the account whose name comes to the same. |
| `ConvWindows.Conversations.NewConversation` | trunk/src/conversation.c:743-862 | The first conversation of that account and name is used again if it has the kind asked for and, as a chat, has been left; else a connected account gets a new one, last in the lists of its kind and in the window made last. A second conversation with the same person comes about if and only if there was one and the first of the name is none. |
| `ConvWindows.Conversations.DestroyAll` | trunk/src/conversation.c:3127-3133 | All conversations and every window that had one are gone. |
| `CmdMarkup.StripMeaning` | trunk/src/cmds.c:180-201 | What is left is the tags of the command, in order, and what follows its end less one space. |
| `CmdMarkup.StripWritten` | trunk/src/cmds.c:185-200 | Character by character: what stands between `<` and the next `>` stays, so does an unclosed `<` with all behind it; another character goes, and a space is the last to go. |
| `CmdMarkup.UnclosedMeaning` | trunk/src/cmds.c:188-191 | The scan gives up at an unclosed `<` if and only if that is where the command ends. |
| `CmdMarkup.StripIsDropWord` | trunk/src/cmds.c:180-201 | Otherwise removing the tags afterwards gives the tag-free text without its first word and one space. |
| `CmdMarkup.UnclosedStays` | trunk/src/cmds.c:188-191 | With an unclosed `<` in the command more is left than that. |
| `CmdMarkup.StripRight` | trunk/src/cmds.c:180-201 | So stripping commutes with removing tags if and only if no unclosed `<` comes before the space. |
| `CmdMarkup.DecodeBytes` | trunk/src/cmds.c:186-186 | The bytes of a character are decoded to it, with their number told by the first. |
| `CmdMarkup.BytesGo` | trunk/src/cmds.c:172-178 | Taking out a character with the length measured at the beginning moves the rest and its NUL down and stays inside the original buffer. |
| `CmdMarkup.TagEnd` | trunk/src/cmds.c:188-191 | The first byte `>` is the end of the tag, never a byte inside a character. |
| `CmdMarkup.MemMove` | trunk/src/cmds.c:177-177 | The bytes move down over an overlapping range. |
| `CmdMarkup.StripCommand` | trunk/src/cmds.c:180-201 | For every line the loop ends, and the buffer then holds what should be left, with its NUL; nothing past the original NUL is written. |

## Left out

- Files, sockets, iconv, getenv, setlocale, preference and XML code, user interface callbacks and protocol plugins. Their
  results are parameters; callbacks are present and change nothing.
- Memory exhaustion: allocations succeed.
- Plural expressions: division by zero has no value; expression nodes are values, so who frees abandoned ones is not
  modelled. The parser's debugging output and the text of its error message are left out.
- Catalogs: byte order of the file, system-dependent segments and conversion of the found string to another codeset.
- The translation cache: the search tree is a map, which its order justifies (`TransCmpIsOrder`); the resolver from a
  locale to catalogs is an arbitrary function that stays the same, and so is the environment; the generation counter does
  not wrap around.
- Locale names: masks are bytes, since there are eight flags; letters and digits are those of the C locale; the loaded
  data of a node is left out.
- getopt: the ordering is a parameter instead of being read from the option string or the environment; calls after the
  first EOF and empty argument vectors are not modelled; error messages are left out.
- The buddy list: nodes are numbers in maps instead of pointers, and a counter stands for the allocator, so aliasing of
  freed memory is not modelled. Settings, aliases, icons, warning levels, sign-on times and the saving of the list are
  left out, as are `gaim_blist_rename_group`, `gaim_blist_remove_group` and `group.totalsize`, which removing a contact
  never decrements. Scores stay below INT_MAX. A status is modelled as its unavailable flag.
- Becoming connected and `gaim_blist_add_account` are one step, and likewise for losing the connection: in between the
  code already counts the account as connected.
- BuddyList.BuddyList.AddBuddy: groups and contacts that are given must be listed, as all callers see to. The only buddy
  of a contact must not be moved to that contact with a `node` that is not a buddy: the source frees the contact then and
  goes on with it.
- BuddyList.BuddyList.AddContact: the contact is unlinked after its buddies have been re-keyed, where the source unlinks
  it before; the states after the call are the same.
- TranslationCache.Gettext.SearchLocales: the catalogs of a locale are given by an arbitrary function, because what
  `DomainFinder` finds depends on the files there are and on what was looked for before.
- TranslationCache.Gettext.Dcigettext: coherence is for such a function that stays the same, so a file that appears or
  goes during the run is not modelled.
- DomainFinder.FindDomain: the files are not loaded; that the caller then takes the first file that can be read, of the
  node and its successors, is not modelled. Aliases are a parameter.
- BuddyList.BuddyList.AddGroup: the group has a name and is listed or new.
- File transfers: reads and writes by protocol code, reference counts, progress reports, and changes to the file by
  others. A receive of unknown size that exceeds a word wraps its count, as in the source, but is then not given a size.
- ConvWindows.Conversations.AddConversation: a conversation is not added to the window in which it is alone: the source
  frees the window then and goes on with it.
- Conversation windows: the contents of conversations, logs, signals and the other placement functions; how names are
  normalised and compared without case is an arbitrary function.
- CmdMarkup.StripCommand: the line is valid UTF-8, as the functions it calls demand.
- Command markup: which characters are spaces is an arbitrary predicate. Registration of commands and the splitting of
  arguments are left out.
