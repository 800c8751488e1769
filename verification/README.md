# A verified model of middle

`middle` reads SQL Server metadata and writes HSQLDB DDL. This project models three parts of it in Dafny and
proves what they promise.

- **The text scanner and macro engine.** A scanner cuts text into quoted regions, matches and single characters and
  rejects comments. On it stand the parenthesis-aware argument tokeniser, the template rewriter with `$n` and `$n-m`
  placeholders, and the identifier macro expander that runs until nothing changes. Texts are `string`, iterators are
  positions, exceptions are `Result` values without positions, character classes are the ASCII ones.
- **The metadata index and the hide-then-emit run.** Foreign keys live in three maps over shared records; rows of the
  other queries are grouped by key. A run migrates the used tables in sorted order, hides what its rejected columns
  touch, writes constraints from what is still visible, and writes the foreign keys after all tables.
- **CREATE TABLE emission.** Streams keep their text and count its characters and lines; a stateful emitter handles
  commas, rejection comments, emptied tables written again as comments, and the line numbers in messages.

Code that works step by step in the source is imperative here: the classes have the source's fields, the loops its
loops. Each method is proved against a specification function, and what the source promises is proved of that
function. Where a promise does not hold for every input, the exact condition is proved with "if and only if".

## Files

| file | contents |
|---|---|
| `Common`, `Placeholders`, `TextProcessor` | results, character classes, trimming; placeholder parsing; matchers and the scanner's step |
| `MacroArgs`, `ArgumentLists`, `ArgumentMeaning`, `LooseLists` | the tokeniser, its structure and its meaning; tokenising any balanced segments |
| `Templates`, `ExpandedPieces`, `RewrittenLists` | template validation and substitution; the segments of the outputs; reading a rewritten list again |
| `SpelledNumbers`, `SpelledTemplates`, `PlainCalls`, `ListTexts`, `MaskedText`, `WholeNames` | what placeholders, calls, quotes and names do, in characters: from the text to the text |
| `MacroExpander`, `MacroScan` | macro expansion; the segments of a text and what passes do to them |
| `MacroTermination` | when the loop ends, and when it leaves no rule name |
| `MacroConservation`, `MacroPromises`, `MacroNames` | what a pass keeps; the two documented promises it keeps only in part; the second one for all rules |
| `Quoting`, `Names`, `NameNormalization`, `SortedNames` | quoting, normalised names and keys, what normalising does to characters, their order |
| `RowRuns`, `FirstRuns`, `FkRows`, `FkMapper` | row grouping; what it keeps and reports when keys repeat; foreign-key rows and what hiding means; the three-map index |
| `Ochain`, `CreateTable`, `TableBody`, `TableTexts`, `LineNumbers` | counting streams; the table emitter; its commas and key; its whole text; its line numbers |
| `PkvsidMigrator` | the identity and primary-key state machine |
| `DdlRun`, `HidableRecords`, `UniqueConstraints`, `ConstraintEmission`, `RunProgress`, `StnamesMigrator` | what a run should write, and the run itself |
| `RunSafety`, `CheckSafety`, `RunOnce`, `RunCounts`, `SchemaRuns`, `RunOrder`, `RunMessages`, `ColumnMessages` | whole-run theorems: when no rejected column is named, how often each thing is created, in which order, messages |
| `StatementReader` | the statements' texts, and a reader that gets the statements back |

## Choices a reader should know

- `*match.text_cit` at the end of the text (src/normal_ddl/ddl_default_value_rule_macro.cc:95) is read as "not `(`".
  A number too large for `unsigned int` is an error, as `lexical_cast` makes it. Three cases are errors where the source
  asserts or reads an unset field: an index past the argument vector, a placeholder record read before it is set, and a
  template that starts with a placeholder or a quote instead of a parenthesis (src/universals/macro_args_expander.h:31),
  which is `MissingOpen`.
- `expand_all_macros` may run forever, so its model takes a number of rounds after which it is `Unfinished`; every
  statement about it is for all numbers of rounds.
- The documentation says that a name whose rule declares an argument list is an error without one (RUNNING.md:216) and
  that names inside longer names are left alone (RUNNING.md:209). The code replaces the former
  (`MacroPromises.BareNameIsReplaced`), and since an identifier starts with a letter it translates the `hello` in
  `_hello` (`MacroPromises.NameInsideNameIsReplaced`). The model follows the code.
- The result of the datatype rules for a column is an input: accepted with a text, or rejected. Messages carry a line,
  a table, a column and a text, and no level.
- "column used but rejected" is sent where the column is not used: the guard at
  src/sqlsvr_ddl/sqlsvr_ddl_stnames_migrator.cc:358 is the negation of what the text says. The model follows the code
  (`RunMessages.RejectionReportedExactlyWhen`, `RunMessages.UsedAndRejected`).
- The warnings about foreign-key targets come in the order of an unordered set, so the run returns that order with them.
- The loaders assert that the first connection redefines nothing and report an error otherwise; the model only reports
  the error, and `RowRuns.FirstConnectionRedefines` and `FkMapper.FirstConnectionRedefines` say when the assertion
  fails.
- A run starts from any set of columns rejected by earlier runs, since the metadata and its flags are shared between
  the runs for several targets. The outcomes of the columns, with their texts, are the same for all runs, while the
  source gives each run its own assumed identities (src/normal_ddl/ddl_stnames_migrator.cc:173), which the rules see.
- The loaders turn a name that normalisation rejects, with a blank in it for example, into the empty one. Columns with
  the empty name are covered like all others (`Names.IsCname`). Of the tables that have it, none is used, since the
  reader of the names file refuses such a name (src/middle_app/dbunit_xml_ddl_names_filereader.cc:55), so they may be
  loaded but not used (`DdlRun.WellNamed`, `DdlRun.Usage.Valid`). What is excluded is a dot in a column's name or at the
  end of a table's: the key of such a column does not lead back to it (`Names.StcnameRoundTrip`), and the source asserts
  that a rejected column's key does.
- Where the code falls short of its promise, the result says exactly when: a mandatory argument list goes unchecked
  (`MacroPromises.CallIsCheckedExactlyWhen`, `MacroPromises.ListsAreCheckedExactlyWhen`) or a name inside a longer one
  is replaced (`MacroNames.ReplacedNamesStandAloneExactlyWhen`); a rewritten argument list is no argument list for the
  next pass when a comment opens where two outputs meet, and falls into more arguments at a range
  (`RewrittenLists.RewrittenAgain`, `RewrittenLists.RewrittenIntoComment`); rejecting one of the columns that a CHECK
  uses leaves the CHECK written for the others (`CheckSafety.ChecksCleanExactlyWhen`,
  `CheckSafety.ComparedColumnEscapes`), and a CHECK of several visible columns is written once for each
  (`RunCounts.ChecksPerColumn`, `RunCounts.ComparedTwice`); rejecting one target of a composite foreign key leaves the
  other columns' constraints visible (`FkRows.CompositeKeyEscapes`, with the exact conditions `FkRows.ExactHiding` and
  `FkRows.SafeHiding`); a table whose last accepted column is followed by rejected ones, with no key, ends in a comma
  (`TableBody.BodyIsWellFormed`, `TableBody.CommaBeforeRejected`); a call with too few arguments may fail before its
  arguments are counted (`MacroConservation.CountIsReachedWhenCovered`); and an identity column that conflicts with
  another key column is rejected but stays in the key (`PkvsidMigrator.KeyNamesRejectedExactlyWhen`,
  `PkvsidMigrator.RejectedColumnInKey`).

## Model

| member | source | states |
|---|---|---|
| Placeholders.ScanDigits | src/normal_ddl/ddl_column_rules.cc:48-56 | the digit loop yields the maximal run of digits, or an error for a leading zero |
| Placeholders.ParseAfterNumber | src/normal_ddl/ddl_column_rules.cc:58-78 | separator backslash, range or nothing behind the number, as the specification reads the slice |
| Placeholders.ParsePlaceholder | src/normal_ddl/ddl_column_rules.cc:41-79 | parsing by position equals parsing the slice, errors included |
| Placeholders.MatchPlaceholder | src/normal_ddl/ddl_column_rules.cc:82-89 | the match length, or an error when a number exceeds the declared count |
| Placeholders.ReparseSlice | src/normal_ddl/ddl_default_value_rule_macro.cc:35-37 | parsing only the matched slice again gives the same placeholder as parsing in the full text |
| Placeholders.EscapeMatchesBackslashOnly | src/normal_ddl/ddl_column_rules.cc:42-43 | backslash-dollar matches the backslash alone, and parsing that again sets no placeholder |
| Placeholders.OpenRangeHasNoEnd | src/normal_ddl/ddl_column_rules.cc:60-78 | the range end is unset if and only if a dash with no digit behind it follows the number |
| Placeholders.LastChar | src/normal_ddl/ddl_column_rules.cc:58-78 | a matched placeholder never ends in a blank, so trimming cannot cut into it |
| TextProcessor.MatchQuote | src/universals/text_processor.h:57-71 | the quote loop consumes exactly the quoted region with its escapes, or reports what is missing |
| TextProcessor.MatchBlockComment | src/universals/text_processor.h:89-98 | the comment loop finds the first closer or reports that there is none |
| TextProcessor.MatchLineComment | src/universals/text_processor.h:115-123 | the comment runs to just past the newline or to the end |
| TextProcessor.MatchIdentifier | src/normal_ddl/ddl_default_value_rule_macro.cc:74-82 | the longest identifier at the front, starting with a letter |
| TextProcessor.FindMatch | src/universals/text_processor.h:183-195 | one round of the scan: rejection, quotes, application match, single character, in that order and never of length 0 |
| TextProcessor.QuoteLocal | src/universals/text_processor.h:57-71 | a matched quote is matched the same way whatever follows it |
| MaskedText.QuotedIsKept | src/normal_ddl/ddl_column_rules.h:66-70 | a pass leaves a text in single or in double quotes alone, whatever the rules |
| MaskedText.EscapedQuoteIsKept | src/universals/text_processor.h:61-66 | a quote behind a backslash does not end the quoted text |
| MaskedText.OpenQuoteIsAnError | src/universals/text_processor.h:70 | a quote that is not closed is an error |
| MaskedText.OpenEscapeIsAnError | src/universals/text_processor.h:61-64 | a quoted text that ends behind a backslash is an error of its own |
| MaskedText.OtherIsCopied | src/normal_ddl/ddl_default_value_rule_macro.cc:76-88 | every other character that is no letter is copied alone and masks nothing |
| MaskedText.QuotedIsOneArgument | src/universals/text_processor.h:167-176 | a text in single or in double quotes is one argument, whatever stands in it |
| ListTexts.BlanksAreTrimmed | src/universals/macro_args_expander.h:43-56 | blanks and tabs around an argument are taken away, and no other character |
| ListTexts.OpenListIsAnError | src/universals/macro_args_expander.h:70-72 | a list that is not closed is an error |
| ListTexts.NoListIsAnError | src/universals/macro_args_expander.h:32-35 | a list or template that does not start with its parenthesis is an error |
| ListTexts.CommentLengths | src/universals/text_processor.h:89-123 | a line comment ends behind its first newline or with the text, a block comment behind its first closer |
| ListTexts.BlockCommentIsAnError | src/universals/text_processor.h:89-98 | a block comment in a list or template is rejected, and one that is not closed is another error |
| ListTexts.EscapeIsAnError | src/normal_ddl/ddl_column_rules.cc:42-43 | backslash-dollar in a template is an error |
| ListTexts.NoNumberIsAnError | src/normal_ddl/ddl_column_rules.cc:48-57 | a dollar sign without a number in a template is an error |
| MacroArgs.MacroArgsExpander.SplitMatch | src/universals/macro_args_expander.h:30-66 | depth counter and token vector after one segment, trimming and the empty-argument errors included |
| MacroArgs.MacroArgsExpander.RewriteArgPlaceholder | src/normal_ddl/ddl_default_value_rule_macro.cc:35-47 | the end of the last token is replaced by the argument or by the range joined with `, ` |
| MacroArgs.MacroArgsExpander.ProcessMatch | src/normal_ddl/ddl_column_rules.cc:92-102 | the rewriter's step: the tokeniser's step, then substitution of a placeholder in place |
| MacroArgs.TokenizeText | src/universals/text_processor.h:180-202 | the whole scan with its state equals the specification walk, for the three roles |
| ArgumentLists.TokenizeIsSplit | src/universals/macro_args_expander.h:30-72 | tokenising is splitting at depth-1 commas first and trimming and checking emptiness afterwards |
| ArgumentLists.SplitSound | src/universals/macro_args_expander.h:30-66 | every split spells the consumed text, and its pieces are balanced, comma-free at depth 1 and comment-free |
| ArgumentLists.SplitComplete | src/universals/macro_args_expander.h:30-66 | every such list of pieces is recovered from its text, whatever follows it |
| ArgumentMeaning.TokeniserMeaning | src/universals/macro_args_expander.h:28-72 | accepted with these tokens and this length if and only if the text starts with such a list, quotes masked, and no argument is blank unless there is only one |
| ArgumentMeaning.AcceptedTokensAreArgs | src/universals/macro_args_expander.h:43-59 | accepted tokens are non-empty, trimmed and balanced |
| ArgumentMeaning.PrintThenTokenize | src/normal_ddl/ddl_default_value_rule_macro.cc:55-65 | printing any arguments and tokenising gives them back and consumes all of the text |
| ArgumentMeaning.RoundTrip | src/normal_ddl/ddl_default_value_rule_macro.cc:50-71 | the identity template: accepted tokens, printed and tokenised again, are the same |
| ArgumentMeaning.TrimOutput | src/universals/macro_args_expander.h:45-55 | trimming after substitution equals substituting after trimming |
| LooseLists.TokenizeLoose | src/universals/macro_args_expander.h:28-72 | the text of any balanced segments is an argument list if and only if no two of them open a comment where they meet, and its tokens are the pieces between the commas outside parentheses |
| Templates.RewriteSucceeds | src/normal_ddl/ddl_default_value_rule_macro.cc:35-46 | for any number of arguments, rewriting succeeds if and only if validation does and no placeholder is an escape or beyond the arguments |
| Templates.ValidationIsSufficient | src/middle_app/ddl_table_migrator_prefs_reader.cc:275-283 | a validated template never fails on the declared number of arguments, if and only if it has no matched escape |
| Templates.PlainTemplateNeverFails | src/middle_app/ddl_table_migrator_prefs_reader.cc:275-283 | a validated template without backslash-dollar never fails on the declared number of arguments |
| Templates.RewritingIsSubstitution | src/normal_ddl/ddl_column_rules.cc:91-102 | the rewritten tokens are the validated pieces with every placeholder replaced at once |
| Templates.CheckedIsFlat | src/normal_ddl/ddl_column_rules.cc:91-102 | under validation a piece stands for its own trimmed text |
| RewrittenLists.RewrittenAgain | src/normal_ddl/ddl_default_value_rule_macro.cc:50-71 | a rewritten and printed list, tokenised again as the next pass does: an error if and only if a comment opens where two outputs meet, else consumed whole, with the rewritten tokens cut at commas outside parentheses |
| RewrittenLists.RangeComesApart | src/normal_ddl/ddl_default_value_rule_macro.cc:40-46 | the arguments that a range joins come back one by one |
| RewrittenLists.RewrittenIntoComment | src/normal_ddl/ddl_default_value_rule_macro.cc:50-71 | an accepted argument and a template whose rewritten list is rejected as a comment |
| SpelledTemplates.AllArguments | src/normal_ddl/ddl_default_value_rule_macro.cc:35-47 | the template `($1, $2, ..., $n)`, its numbers in decimal, gives any n arguments back, each in its place |
| SpelledTemplates.OneArgument | src/normal_ddl/ddl_column_rules.cc:48-57 | `($k)` gives the k-th argument, and is an error if the rule declares fewer or the call supplies fewer |
| SpelledTemplates.RangeOfArguments | src/normal_ddl/ddl_column_rules.cc:60-75 | `($k-m)` gives the arguments from the k-th to the m-th with a comma and a blank between, and is an error if m is not greater than k or not supplied |
| SpelledTemplates.OpenRange | src/normal_ddl/ddl_default_value_rule_macro.cc:39-45 | `($k-)` gives the k-th argument alone |
| SpelledTemplates.SeparatedArgument | src/normal_ddl/ddl_column_rules.cc:58-59 | a backslash between a placeholder and a digit or a dash ends the number and disappears |
| SpelledTemplates.SeparatedRange | src/normal_ddl/ddl_column_rules.cc:76-77 | the same behind a range, before a digit |
| SpelledTemplates.ZeroIsAnError | src/normal_ddl/ddl_column_rules.cc:49-50 | a number that begins with a zero is an error |
| PlainCalls.PlainArguments | src/universals/macro_args_expander.h:28-66 | plain arguments with a comma and a blank between are the arguments of the list in parentheses, all of it consumed |
| PlainCalls.InnerCommaSeparatesNothing | src/universals/macro_args_expander.h:37-58 | a comma inside inner parentheses separates nothing |
| PlainCalls.EmptyArgumentIsAnError | src/universals/macro_args_expander.h:53-57 | nothing in front of a comma is an error, in lists and in templates |
| PlainCalls.CommentIsAnError | src/universals/text_processor.h:184-186 | a comment is an error, in lists and in templates |
| PlainCalls.CallIsRewritten | src/normal_ddl/ddl_default_value_rule_macro.cc:85-115 | a call of a rule with the template `($1, ..., $n)`, in front of any text, becomes the right-hand side with the same arguments |
| PlainCalls.CallIsDropped | src/normal_ddl/ddl_default_value_rule_macro.cc:95-104 | without a template the list is dropped if it has the declared length, and otherwise an error |
| MacroExpander.RewriteMacroArgs | src/normal_ddl/ddl_default_value_rule_macro.cc:50-65 | nothing without a template, else the rewritten tokens printed in parentheses |
| MacroExpander.ExpandMacroArgs | src/normal_ddl/ddl_default_value_rule_macro.cc:68-71 | consumed length, argument count and rewritten text of one argument list |
| MacroExpander.Expander.ProcessMatch | src/normal_ddl/ddl_default_value_rule_macro.cc:85-115 | what is appended for one segment and where the scan goes on |
| WholeNames.NameIsReplaced | src/normal_ddl/ddl_default_value_rule_macro.cc:74-112 | a letter and then letters, digits and underscores, in any spelling, are one name, which gives way to the right-hand side of the rule under its capitals, or is copied if there is none |
| WholeNames.LongerNameIsKept | src/normal_ddl/ddl_default_value_rule_macro.cc:79 | the same name with one more such character behind it is not replaced by that rule |
| MacroExpander.Expander.AppendText | src/universals/text_processor.h:180-214 | the scan with its growing text equals one pass |
| MacroExpander.Expander.Expand | src/normal_ddl/ddl_default_value_rule_macro.cc:118-121 | none when the pass changes nothing |
| MacroExpander.Expander.ExpandAllMacros | src/normal_ddl/ddl_default_value_rule_macro.cc:124-136 | the do-while loop equals the specification, whose properties follow |
| MacroExpander.ExpandAllIsFixedPoint | src/normal_ddl/ddl_default_value_rule_macro.cc:124-136 | whatever the rules: a result is a fixed point reached by finitely many passes from the input, and none means the input is one |
| MacroExpander.ExpandAllReaches | src/normal_ddl/ddl_default_value_rule_macro.cc:124-136 | a fixed point that passes reach is the result |
| MacroScan.ScanSound | src/universals/text_processor.h:183-200 | a scan spells its text, and identifiers are taken as long as possible |
| MacroScan.ScanComplete | src/universals/text_processor.h:183-200 | every such list of segments is the scan of its text |
| MacroScan.PassReplacesSegs | src/normal_ddl/ddl_default_value_rule_macro.cc:84-115 | for rules without arguments a pass over a text with closed quotes succeeds, and the scan of its output is the scans of the replaced pieces, one behind the other |
| MacroTermination.RankedRulesTerminate | src/normal_ddl/ddl_default_value_rule_macro.cc:124-136 | ranked rules end within the greatest rank plus one passes, with no rule name outside quotes left |
| MacroTermination.RankedRulesEnd | src/normal_ddl/ddl_default_value_rule_macro.cc:124-136 | if the rules that do more than respell their own name are ranked, the loop ends within the greatest rank plus two rounds, and only respelled rule names are left |
| MacroTermination.EndingIsRanking | src/normal_ddl/ddl_default_value_rule_macro.cc:124-136 | for rules without arguments the loop ends on every text with closed quotes if and only if the rules that do more than respell their own name can be ranked |
| MacroTermination.ClearingIsRanking | src/normal_ddl/ddl_default_value_rule_macro.cc:124-136 | it ends and leaves no rule name outside quotes, for every such text, if and only if all the rules can be ranked |
| MacroTermination.RespellingRuleEnds | src/normal_ddl/ddl_default_value_rule_macro.cc:124-136 | a rule that respells its own name ends every such text in one round, and cannot be ranked |
| MacroTermination.FixedIsSettled | src/normal_ddl/ddl_default_value_rule_macro.cc:118-121 | segments that a pass leaves unchanged as a whole are left unchanged one by one |
| MacroTermination.OpenQuoteFails | src/normal_ddl/ddl_default_value_rule_macro.cc:118-121 | a text with an open quote fails with the scanner's error |
| MacroTermination.CycleNeverFinishes | src/normal_ddl/ddl_default_value_rule_macro.cc:129-134 | two rules that name each other never end |
| MacroConservation.PassConserves | src/universals/text_processor.h:180-202 | for all rules the input of a pass is cut into chunks that spell it and the output: segments and names as long as possible, with their argument list exactly when one is declared and follows |
| MacroConservation.ChunksArePass | src/normal_ddl/ddl_default_value_rule_macro.cc:84-115 | the converse: for every such list of chunks, the pass over the text they spell gives their outputs |
| MacroConservation.ChunksAreUnique | src/universals/text_processor.h:180-202 | a text is cut into such chunks in one way only |
| MacroConservation.NoNameNoChange | src/normal_ddl/ddl_default_value_rule_macro.cc:118-121 | a text with no rule name outside quotes is unchanged |
| MacroConservation.ArgumentsStandAlone | src/normal_ddl/ddl_default_value_rule_macro.cc:96-104 | an argument list is tokenised the same way whatever stands behind it |
| MacroConservation.CountIsReachedWhenCovered | src/normal_ddl/ddl_default_value_rule_macro.cc:68-101 | arguments are rewritten before they are counted: the count is compared if and only if every placeholder has its arguments |
| MacroConservation.MissingArgumentIsNotCounted | src/normal_ddl/ddl_default_value_rule_macro.cc:70-100 | a call with too few arguments that never reaches the comparison |
| MacroConservation.ValidatedCallSucceeds | src/normal_ddl/ddl_default_value_rule_macro.cc:98-104 | a call of a validated rule with the declared number of arguments succeeds |
| MacroPromises.CallIsCheckedExactlyWhen | src/normal_ddl/ddl_default_value_rule_macro.cc:95-111 | just the calls with a list that tokenises, is rewritten and has the declared length are accepted, if and only if a parenthesis directly follows the name |
| MacroPromises.ListsAreCheckedExactlyWhen | src/normal_ddl/ddl_default_value_rule_macro.cc:84-121 | the pass as documented succeeds, with the same text, if and only if the pass does and comes to no name without the list its rule declares |
| MacroPromises.BareNameIsReplaced | src/normal_ddl/ddl_default_value_rule_macro.cc:95-112 | a name without its mandatory list is replaced instead of rejected |
| MacroPromises.NamesStandAloneExactlyWhen | src/normal_ddl/ddl_default_value_rule_macro.cc:73-92 | every scanned rule name stands alone if and only if no run of letters, digits and underscores outside quotes starts with a digit or underscore and is a rule name from its first letter on |
| MacroNames.ReplacedNamesStandAloneExactlyWhen | src/normal_ddl/ddl_default_value_rule_macro.cc:73-115 | for all rules, every name that a pass replaces stands alone in its text if and only if, the insides of the argument lists taken left out, no run of letters, digits and underscores outside quotes hides a rule name behind leading digits or underscores |
| MacroPromises.NameInsideNameIsReplaced | src/normal_ddl/ddl_default_value_rule_macro.cc:73-112 | a name behind an underscore is replaced inside the longer name |
| Quoting.MakeQuotable | src/normal_ddl/ddl_names.cc:35-45 | the in-place replace loop equals mapping each quote to backslash-quote |
| Quoting.QuotingRoundTrip | src/normal_ddl/ddl_names.cc:34-45 | the quote matcher takes the quoted text whole and unescaping gives the text back, if and only if it has no backslash |
| Names.NormalizeDdlName | src/normal_ddl/ddl_names.cc:14-32 | lower case, or empty when the text is not a name |
| NameNormalization.NormalizedExactly | src/normal_ddl/ddl_names.cc:14-32 | which names are accepted, and that capital letters are made small and nothing else is changed, in characters |
| NameNormalization.CaseIsIgnored | src/normal_ddl/ddl_names.cc:22-23 | names that differ in the case of letters only are normalised alike |
| NameNormalization.NormalizedOnce | src/normal_ddl/ddl_names.cc:14-32 | normalising a normalised name changes nothing more |
| Names.StnameRoundTrip | src/normal_ddl/ddl_names.h:36-60 | a composed table name splits into its parts if and only if the schema has no dot |
| Names.StcnameRoundTrip | src/normal_ddl/ddl_names.h:69-98 | a composed column name splits into its parts if and only if neither schema nor column has a dot |
| Names.KeyRoundTrip | src/normal_ddl/ddl_names.h:83-100 | a column's key leads back to its table and its column, also for a column whose name normalisation rejected |
| Names.UnnamedKey | src/normal_ddl/ddl_names.h:69-81 | the columns of tables whose names normalisation rejected have one key, which is no other column's |
| RowRuns.RunLoader.InsertRecs | src/sqlsvr_ddl/sqlsvr_ddl_tc_mapper.cc:67-72 | a key already there is an error and keeps its first records |
| RowRuns.RunLoader.LoadConnection | src/sqlsvr_ddl/sqlsvr_ddl_tc_mapper.cc:139-218 | the row loop inserts exactly the maximal runs of equal keys, the last one after the loop |
| RowRuns.RunLoader.Load | src/sqlsvr_ddl/sqlsvr_ddl_uq_mapper.cc:42-115 | all connections in order |
| RowRuns.GroupingRefinesFilter | src/sqlsvr_ddl/sqlsvr_ddl_uq_mapper.cc:74-111 | no error if and only if each key is one run of one connection; then each key maps to exactly its rows, in order |
| FirstRuns.FirstStretchIsKept | src/sqlsvr_ddl/sqlsvr_ddl_tc_mapper.cc:67-72 | whatever is repeated, a key keeps the records of its first stretch of rows, in the first connection that has it |
| FirstRuns.RepetitionsAreReported | src/sqlsvr_ddl/sqlsvr_ddl_tc_mapper.cc:67-72 | every other stretch of a key is reported exactly once, with its own connection |
| RowRuns.FirstConnectionRedefines | src/sqlsvr_ddl/sqlsvr_ddl_tc_mapper.cc:68-71 | the asserted case, an error of the first connection, occurs if and only if its rows do not keep equal keys together |
| FkMapper.FkIndex.Insert | src/sqlsvr_ddl/sqlsvr_ddl_fk_mapper.h:68 | insertion by source column, refused for a column already there |
| FkMapper.FkIndex.InsertConstraintName | src/sqlsvr_ddl/sqlsvr_ddl_fk_mapper.h:69 | insertion by constraint name, which keeps the first record |
| FkMapper.FkIndex.InsertReverse | src/sqlsvr_ddl/sqlsvr_ddl_fk_mapper.cc:132-142 | the target's list grows by one, or begins |
| FkMapper.IndexRow | src/sqlsvr_ddl/sqlsvr_ddl_fk_mapper.cc:107-119 | a row with a new source column keeps the three maps describing the same rows |
| FkMapper.FkLoader.LoadRow | src/sqlsvr_ddl/sqlsvr_ddl_fk_mapper.cc:107-119 | one round of the row loop keeps the index coherent until a source column repeats, and reports each column that was there already |
| FkMapper.FkLoader.LoadFkMapper | src/sqlsvr_ddl/sqlsvr_ddl_fk_mapper.cc:39-129 | the errors in order, none if and only if source columns are distinct; then the index is coherent and nothing is hidden |
| FkMapper.FirstConnectionRedefines | src/sqlsvr_ddl/sqlsvr_ddl_fk_mapper.cc:31-36 | the asserted case, an error of the first connection, occurs if and only if one of its columns is in two foreign keys |
| FkMapper.FkIndex.HideColumn | src/sqlsvr_ddl/sqlsvr_ddl_stnames_migrator.cc:153-165 | the flags are those the set of rejected columns calls for, through both maps that share the records |
| FkMapper.FkIndex.HideColumns | src/sqlsvr_ddl/sqlsvr_ddl_stnames_migrator.cc:137-171 | any sequence of rejections leaves the state of its set: order and repetition do not matter |
| FkMapper.FkIndex.FoundExactlyWhenUntouched | src/sqlsvr_ddl/sqlsvr_ddl_fk_mapper.h:73-76 | a constraint is found unhidden if and only if neither its column nor its target was rejected |
| FkRows.ExactHiding | src/sqlsvr_ddl/sqlsvr_ddl_stnames_migrator.cc:153-165 | every rejection hides exactly the constraints touching it if and only if names repeat only among rows referring to the repeated row's own column |
| FkRows.SafeHiding | src/sqlsvr_ddl/sqlsvr_ddl_stnames_migrator.cc:153-165 | no constraint touching a rejected column stays visible if and only if rows with a name already taken refer to themselves |
| FkRows.DistinctNamesBehave | src/sqlsvr_ddl/sqlsvr_ddl_fk_mapper.h:69 | distinct constraint names meet the condition for exact hiding |
| FkRows.CompositeKeyEscapes | src/sqlsvr_ddl/sqlsvr_ddl_fk_mapper.h:69 | a composite key whose second target is rejected and whose second constraint stays visible |
| Ochain.CounterOchain.Write | src/universals/ochain.h:67-91 | the text grows, and the counters count its characters and newlines from where they were started |
| Ochain.CounterOchain.MergeInto | src/universals/ochain.h:84-91 | the whole text, behind a newline if asked for, with the target's counters kept true |
| Ochain.LinesAreNewlines | src/universals/ochain.h:67-91 | the number of lines is the number of positions that hold a newline |
| CreateTable.HsqldbTableMigrator.MigrateDatatype | src/middle_app/dbunit_hsqldb_ddl_table_migrator.cc:18-33 | a rejected column's first occurrence leaves the key |
| CreateTable.HsqldbTableMigrator.FilterPkColumns | src/middle_app/dbunit_hsqldb_ddl_table_migrator.cc:36-41 | the key is handed out once, then it is a logic error |
| CreateTable.WriteColumns | src/normal_ddl/ddl_stnames_migrator.cc:168-193 | the column loop with `prev` and `unrejected_column`: text, rejected names, key and messages |
| CreateTable.WriteCommented | src/normal_ddl/ddl_stnames_migrator.cc:212-218 | the line loop writes every complete line as a comment and keeps empty ones |
| CreateTable.MigrateCreateTable | src/normal_ddl/ddl_stnames_migrator.cc:152-224 | everything a table adds to the output, and its rejected names, key and messages |
| TableBody.BodyIsWellFormed | src/normal_ddl/ddl_stnames_migrator.cc:159-205 | without comments the body is the accepted columns and the key with single commas between, if and only if it is not the case that rejected columns follow an accepted one and there is no key |
| TableBody.CommaBeforeRejected | src/normal_ddl/ddl_stnames_migrator.cc:159-205 | an accepted column and a rejected one behind it, without a key: the body ends in a comma |
| TableBody.PkWithoutRejected | src/middle_app/dbunit_hsqldb_ddl_table_migrator.cc:24-31 | the emitted key is the key without its rejected columns, in order |
| TableTexts.TableIsWritten | src/normal_ddl/ddl_stnames_migrator.cc:165-222 | the whole text of a CREATE TABLE from its columns, comments, commas and key, or all of it as comments when no column is accepted |
| TableTexts.LinesAreCommented | src/normal_ddl/ddl_stnames_migrator.cc:212-218 | every line of a text gets two dashes and a blank in front, and an empty one stays empty |
| TableTexts.EmptiedTable | src/normal_ddl/ddl_stnames_migrator.cc:209-222 | the text of a table whose only column is rejected |
| LineNumbers.LinesAreTrue | src/normal_ddl/ddl_stnames_migrator.cc:165-221 | the recorded line is that of the position, behind the columns before it, where the column's text or rejection comment stands, for emptied tables too, whatever surrounds the table |
| LineNumbers.MessagesLocated | src/normal_ddl/ddl_stnames_migrator.cc:186-187 | every message of a table belongs to one of its columns and carries the line of that column's own position |
| ColumnMessages.ColumnMessagesAreSent | src/normal_ddl/ddl_stnames_migrator.cc:186-187 | a run sends a message with a line for a column and a text if and only if the table is used and defined and the rules gave a column of that name this message |
| ColumnMessages.OneLinePerColumn | src/normal_ddl/ddl_stnames_migrator.cc:165-193 | where names, texts and types are on one line, the messages of the column of index k carry the number of lines before the table plus k + 2 |
| LineNumbers.WriteHeader | src/middle_app/ddl_mass_migrator.cc:88-98 | the header text and the offset counted while writing it |
| LineNumbers.OffsetCountsHeader | src/middle_app/ddl_mass_migrator.cc:88-98 | the offset is the header's number of lines if and only if no path and no introduction has a newline |
| LineNumbers.FileLine | src/middle_app/ddl_mass_migrator.cc:112-122 | the offset plus a message's line is its line in the file, at the position behind the header |
| PkvsidMigrator.PkvsidTableMigrator.MigrateDatatype | src/middle_app/dbunit_pkvsid_ddl_table_migrator.cc:20-57 | key, identity names and count after one column, and what is decided for it |
| PkvsidMigrator.PkvsidTableMigrator.MigrateColumns | src/middle_app/dbunit_pkvsid_ddl_table_migrator.cc:20-57 | the decisions over the columns of a table |
| PkvsidMigrator.PkvsidTableMigrator.FilterPkColumns | src/middle_app/dbunit_pkvsid_ddl_table_migrator.cc:60-65 | the key is handed out once, then it is a logic error |
| PkvsidMigrator.PkvsidTableMigrator.UniquifyIdentityColumns | src/middle_app/dbunit_pkvsid_ddl_table_migrator.cc:68-74 | the identity names are handed out once, then it is a logic error |
| PkvsidMigrator.ClauseExactlyWhen | src/middle_app/dbunit_pkvsid_ddl_table_migrator.cc:24-43 | an identity clause if and only if it is the first identity column that passed and no other key column remained |
| PkvsidMigrator.AtMostOneClause | src/middle_app/dbunit_pkvsid_ddl_table_migrator.cc:36-43 | at most one column of a table ever gets an identity clause |
| PkvsidMigrator.Decided | src/middle_app/dbunit_pkvsid_ddl_table_migrator.cc:20-57 | for any two names: rejected by the rules, passed as no identity, passed as the whole key, in conflict with another key column, in conflict with an earlier identity |
| PkvsidMigrator.UniquifyExactlyWhen | src/middle_app/dbunit_pkvsid_ddl_table_migrator.cc:68-74 | never more than one name; c if and only if c was the only identity column to pass and no other key column remained when it was seen |
| PkvsidMigrator.KeyNamesRejectedExactlyWhen | src/middle_app/dbunit_pkvsid_ddl_table_migrator.cc:26-66 | the key names a rejected column if and only if the rules let it pass as an identity column and it was one of several key columns they had left |
| PkvsidMigrator.RejectedColumnInKey | src/middle_app/dbunit_pkvsid_ddl_table_migrator.cc:26-66 | an identity column in a key of two: rejected, and named by the emitted key |
| SortedNames.SortIsSort | src/sqlsvr_ddl/sqlsvr_ddl_stnames_migrator.cc:317-325 | sorting gives an ordered permutation in the names' lexicographic order |
| SortedNames.OrderIsLexicographic | src/normal_ddl/ddl_names.h:64 | names compare at the first character in which they differ, and a name goes before its extensions |
| SortedNames.SchemaIsContiguous | src/normal_ddl/ddl_names.h:53-64 | between two tables of a schema in sorted order there are only tables of that schema |
| StnamesMigrator.Migrator.HideRejectedColumn | src/sqlsvr_ddl/sqlsvr_ddl_stnames_migrator.cc:136-171 | checks, unique records and foreign keys are hidden exactly as the rejected columns call for, and of a table's records exactly the first of each rejected name |
| HidableRecords.DistinctNamesMatch | src/sqlsvr_ddl/sqlsvr_ddl_stnames_migrator.cc:136-147 | with distinct column names a column's record is hidden if and only if the column is rejected |
| ConstraintEmission.EmitChecks | src/sqlsvr_ddl/sqlsvr_ddl_stnames_migrator.cc:174-198 | the loops over visible records write exactly the checks of columns that are not rejected |
| ConstraintEmission.MapUniqueColumns | src/sqlsvr_ddl/sqlsvr_ddl_stnames_migrator.cc:201-225 | the map groups the visible pairs by constraint, columns in table order |
| UniqueConstraints.SortUniqueNames | src/sqlsvr_ddl/sqlsvr_ddl_stnames_migrator.cc:228-234 | the sorted names do not depend on the order in which the map lists its keys |
| ConstraintEmission.EmitUniques | src/sqlsvr_ddl/sqlsvr_ddl_stnames_migrator.cc:237-256 | one statement per name, in sorted order, with the map's columns |
| UniqueConstraints.UniquesInvert | src/sqlsvr_ddl/sqlsvr_ddl_stnames_migrator.cc:200-256 | emission inverts the map from columns to constraints: each name once, sorted, with exactly its visible columns in table order |
| ConstraintEmission.EmitForeignKeys | src/sqlsvr_ddl/sqlsvr_ddl_stnames_migrator.cc:262-288 | the foreign keys of a table are those the index still shows, nothing if the run only validates, and the tables the used columns' keys refer to are collected |
| StatementReader.ForeignKeyText | src/normal_ddl/ddl_stnames_migrator.cc:244-247 | the text of a foreign key, in its table and column and its target's |
| StatementReader.ReadsForeignKey | src/normal_ddl/ddl_stnames_migrator.cc:244-247 | reading a foreign key's text gives back its table and column and its target's |
| StatementReader.ReadsCheck | src/normal_ddl/ddl_stnames_migrator.cc:226-229 | reading a CHECK's text gives back its table, name and clause, if the clause has no backslash |
| StatementReader.ReadsUnique | src/normal_ddl/ddl_stnames_migrator.cc:231-242 | reading a UNIQUE's text gives back its table, name and columns in order |
| StatementReader.ReadsSchema | src/normal_ddl/ddl_stnames_migrator.cc:83-86 | reading a CREATE SCHEMA's text gives back the schema |
| StnamesMigrator.Migrator.FindTableInfo | src/sqlsvr_ddl/sqlsvr_ddl_stnames_migrator.cc:328-342 | all columns of the table, and those of them in the key |
| StnamesMigrator.Migrator.MigrateStname | src/sqlsvr_ddl/sqlsvr_ddl_stnames_migrator.cc:345-371 | schema, table, hiding and constraints of one table, in that order, and all its messages, those about rejected columns included |
| RunProgress.FinalIsKnown | src/sqlsvr_ddl/sqlsvr_ddl_stnames_migrator.cc:356-369 | rejections in later tables do not change what a table wrote |
| StnamesMigrator.Migrator.MigrateDdlStnames | src/sqlsvr_ddl/sqlsvr_ddl_stnames_migrator.cc:374-398 | the body, the rejected columns and all messages, with the warnings about foreign-key targets, are those computed directly from the metadata, also for a run that only validates |
| RunSafety.ChecksEmitted | src/sqlsvr_ddl/sqlsvr_ddl_stnames_migrator.cc:174-198 | a CHECK is emitted for a column if and only if the column lists it, belongs to a used table and is not rejected |
| RunSafety.UniquesEmitted | src/sqlsvr_ddl/sqlsvr_ddl_stnames_migrator.cc:200-256 | a UNIQUE is emitted if and only if its columns are exactly the visible columns listing its name, and there is one |
| RunSafety.ForeignKeysEmitted | src/sqlsvr_ddl/sqlsvr_ddl_stnames_migrator.cc:262-303 | a FOREIGN KEY is emitted if and only if its column belongs to a used table and neither it nor its target is rejected in any table |
| RunOnce.ForeignKeysOnce | src/sqlsvr_ddl/sqlsvr_ddl_stnames_migrator.cc:262-303 | over distinct used tables every such foreign key is written exactly once, and no other |
| RunCounts.TablesOnce | src/sqlsvr_ddl/sqlsvr_ddl_stnames_migrator.cc:374-386 | over distinct used tables each defined one gets exactly one CREATE TABLE, and no other table any |
| RunCounts.UniquesOnce | src/sqlsvr_ddl/sqlsvr_ddl_stnames_migrator.cc:200-256 | a UNIQUE is created exactly once if a visible column of its table lists it, and otherwise not |
| RunCounts.ChecksAsListed | src/sqlsvr_ddl/sqlsvr_ddl_stnames_migrator.cc:174-198 | a CHECK is created as often as the visible columns of its table list it |
| RunCounts.ChecksPerColumn | src/sqlsvr_ddl/sqlsvr_ddl_ck_mapper.cc:61-121 | where no column lists a check twice, a CHECK is created once for each visible column it uses, hence once if and only if there is one |
| RunCounts.ComparedTwice | src/sqlsvr_ddl/sqlsvr_ddl_stnames_migrator.cc:174-198 | a check of two accepted columns is created twice, with the same text |
| RunSafety.EmittedPk | src/sqlsvr_ddl/sqlsvr_ddl_stnames_migrator.cc:333-339 | the key of an emitted table is its key columns without the rejected ones |
| RunSafety.NothingRejectedIsNamed | src/sqlsvr_ddl/sqlsvr_ddl_stnames_migrator.cc:345-398 | whole-run safety: no PRIMARY KEY, UNIQUE or FOREIGN KEY names a column rejected when the run is over, and no CHECK uses one, provided that foreign-key names repeat only safely and no check is listed by both a visible and a rejected column |
| CheckSafety.ChecksCleanExactlyWhen | src/sqlsvr_ddl/sqlsvr_ddl_stnames_migrator.cc:149-198 | no CHECK of a run uses a rejected column if and only if no check is listed by both a visible and a rejected column of a used table |
| CheckSafety.ChecksCleanAlwaysExactlyWhen | src/sqlsvr_ddl/sqlsvr_ddl_ck_mapper.cc:61-121 | it is so whatever is rejected, if and only if each check is listed by one column of its table only |
| CheckSafety.ComparedColumnEscapes | src/sqlsvr_ddl/sqlsvr_ddl_stnames_migrator.cc:149-153 | a check of two columns of which one is rejected: it is written for the other, and uses the rejected one |
| SchemaRuns.SchemasAreCreatedOnceAndFirst | src/sqlsvr_ddl/sqlsvr_ddl_stnames_migrator.cc:348-386 | CREATE SCHEMA exactly once per schema of the used tables with metadata, before its first CREATE TABLE |
| RunOrder.ConstraintsFollowTables | src/sqlsvr_ddl/sqlsvr_ddl_stnames_migrator.cc:345-371 | every CHECK and every UNIQUE stands behind the CREATE TABLE of its own table |
| RunOrder.KeysFollowAllTables | src/sqlsvr_ddl/sqlsvr_ddl_stnames_migrator.cc:381-397 | every foreign key stands behind the CREATE TABLE of every used table with metadata, its target's included |
| RunOrder.TablesAreSorted | src/sqlsvr_ddl/sqlsvr_ddl_stnames_migrator.cc:317-325 | a run creates its tables in the order of their names |
| RunMessages.RunMessagesHold | src/sqlsvr_ddl/sqlsvr_ddl_stnames_migrator.cc:374-398 | every message of a run's tables is about a column, with the line of that column's own position in the table's own statement, about a rejected column that is not used, or about an undefined table |
| RunMessages.RejectionReportedExactlyWhen | src/sqlsvr_ddl/sqlsvr_ddl_stnames_migrator.cc:356-365 | "used but rejected" is sent for a column if and only if it is a rejected column of a defined used table and not a used column |
| RunMessages.UsedRejectionIsSilent | src/sqlsvr_ddl/sqlsvr_ddl_stnames_migrator.cc:356-365 | "used but rejected" is never sent for a used column, rejected or not |
| RunMessages.UsedAndRejected | src/sqlsvr_ddl/sqlsvr_ddl_stnames_migrator.cc:356-365 | a used column that is rejected, and a run that sends no message at all |
| RunMessages.UndefinedReportedExactlyWhen | src/sqlsvr_ddl/sqlsvr_ddl_stnames_migrator.cc:386-393 | "table used but undefined" is sent for exactly the used tables without metadata |
| RunMessages.TargetWarnedExactlyWhen | src/sqlsvr_ddl/sqlsvr_ddl_stnames_migrator.cc:260-306 | a table is warned about if and only if it is not used and a foreign key that the run writes for a used column refers to it |

## Left out

- ODBC, XML, JSON, options, logging and files: the loaders get rows, the rules get their fields, and the streams are texts.
- The datatype size rules (src/normal_ddl/ddl_table_migrator.cc:24-283): a column's outcome is an input.
- Removal of outer parentheses from default values (src/normal_ddl/ddl_table_migrator.cc:288-289): it looks at the first and last character only.
- `uniquify_identity_column` and `uq_constraint_sharing` (src/sqlsvr_ddl/sqlsvr_ddl_stnames_migrator.cc:77-134): the run is modelled with the HSQLDB table migrator, which never asks for them.
- The order of messages (src/normal_ddl/ddl_stnames_migrator.cc:39-64): it is not a strict order.
- The third argument of the quote matcher (src/universals/text_processor.h:65): both matchers of the macro engine leave it out.
- Text positions inside errors, and the message texts built from them.
- Column positions checked by the table loader (src/sqlsvr_ddl/sqlsvr_ddl_tc_mapper.cc:192-202): they are assertions about the query's order.
- FkMapper.FkLoader.LoadFkMapper: says nothing about the index once a source column has repeated, because the source then keeps a pointer to a freed record and discards the result.
- MacroTermination.RankedRulesTerminate: does not cover rules with argument lists, because pasting a rewritten list to what follows can make new identifiers.
- MacroTermination.EndingIsRanking: is about rules without argument lists, for the same reason.
- MacroTermination.ClearingIsRanking: is about rules without argument lists, for the same reason.
- MacroPromises.NamesStandAloneExactlyWhen: is about the scan of a text; `MacroNames.ReplacedNamesStandAloneExactlyWhen` is about what a pass replaces.
- RunSafety.NothingRejectedIsNamed: does not cover the migrator of `PkvsidMigrator`, whose key can name a rejected column, exactly when `PkvsidMigrator.KeyNamesRejectedExactlyWhen` says.
- CreateTable.FindNewline: is a function, where the source calls `find` of the standard library.
