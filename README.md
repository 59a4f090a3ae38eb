# repeatit, modelled in Dafny

repeatit is a command-line flashcard drill. A lesson file holds
question/answer pairs grouped into subsections. The tool parses that file
into a topic, gathers the selected subsections into one question bank, and
drills the user. The drill is a pass over the bank, repeated a given
number of times. Pairs come in order or drawn at random, optionally
reversed, with a pause or one line of input between each question and its
answer. Three goroutines relay the strings the session sends and render
them on the terminal with a header, a banner per pass, a separator after
each answer and a closing line at the pass limit. The small helpers are
modelled too: the lesson-number series ("1:3,5"), zero-padded lesson
numbers, fresh lesson IDs, and the padding of the summary and status lines.

The model is organised by component:

- `number_serie.dfy` covers `parsing/number-serie.go`: validation and expansion of number series.
- `question_bank.dfy` covers the question bank of `datamodel/questions_answers.go`, with the zero-value variant of `datamodel/questionsanswers.go`, `datamodel.go` and `cmd/lib.go`.
- `topics.dfy` covers the Topic of `datamodel/topic.go` and its copies: get-or-create subsections, and BuildQuestionsSet.
- `lessons_stream.dfy` covers the lesson-file parser of `parsing/lessons-stream.go`.
- `legacy_parsing.dfy` covers `Parse` and `ParseTopic` of `parsing.go`, `GetListOfSubsections` of `datamodel.go`, and `ParseTopic` of `cmd/lib.go`.
- `session.dfy` covers AskQuestions of `engine/ask.go`, `ask.go` and `cmd/lib.go`. The copies are selected by a `Variant`.
- `relay.dfy` covers fanOutChannel and publishChanToWriter of `engine/channels.go` and `cmd/lib.go`.
- `drill.dfy` composes the session, the two fan-outs and the publisher.
- `language.dfy` covers the lesson list of `datamodel/language.go`.
- `converter.dfy` covers ConvertToStringsArray of `tools/converter.go`.
- `display.dfy` covers getRepeatedPattern, Summary, Success and Failure of `tools/display.go`.
- `strings.dfy`, `arith.dfy` and `wrappers.dfy` hold the Go library functions these use (strings.Split, Join, TrimPrefix, Trim, Repeat, strconv.Atoi, fmt's %d, UTF-8 lengths) and arithmetic facts.

Go values are datatypes and functions. A Go struct mutated through a
pointer receiver is a class whose methods update its fields:
QuestionsAnswers, Topic and LanguageResources. Loops are methods with
loop invariants, proved against specification functions. A session
becomes the trace of its events: the sends on Qachan and Command, the
pauses and the closing. A channel is what that trace carries on it, a
finite sequence of strings. The random generator becomes
a sequence of draws, standard input a sequence of lines, and the terminal
a sequence of writes.

## Model

| member | source | states |
|---|---|---|
| NumberSerie.AllowedExamples | parsing/number-serie_test.go:8-18 | "1", "1:4" and "1,2:5,10" are accepted; "1:", ":1", "1s" and ":" are rejected |
| NumberSerie.AllowedPieces | parsing/number-serie.go:26-30 | in an accepted serie, every ':' piece of every ',' group is a non-empty digit string, so the ignored Atoi errors never occur |
| NumberSerie.ParseNumberSerie | parsing/number-serie.go:20-66 | an error, with an empty list, exactly when the validator rejects the serie; otherwise the expansion of its groups in input order |
| NumberSerie.AppendChain | parsing/number-serie.go:28-61 | the inner loop over a group's ':' pieces appends the chain of ranges of the numbers they read as |
| NumberSerie.AppendChainFrom | parsing/number-serie.go:33-61 | each adjacent pair appends its range, later ranges starting one step past the shared endpoint, and an equal pair ends the group |
| NumberSerie.AppendRange | parsing/number-serie.go:52-60 | the two counting loops append every integer from min to max, counting down when min > max |
| NumberSerie.Segment | parsing/number-serie.go:52-60 | a range is never empty, starts at its first number and ends at its last |
| NumberSerie.ExpandGroupsAppend | parsing/number-serie.go:26-27 | groups written one after the other expand one after the other |
| NumberSerie.ExpandJoinedGroups | parsing/number-serie.go:26-31 | a serie made of ','-free groups joined by ',' expands group by group |
| NumberSerie.ExpandJoinedPieces | parsing/number-serie.go:28-29 | a group written as its ':' pieces expands to the chain of the numbers those pieces read as |
| NumberSerie.AtoiDigits | parsing/number-serie.go:30 | Atoi of a digit string, with its error ignored, is the string's value |
| NumberSerie.LoneNumber | parsing/number-serie.go:28-31 | a lone number n expands to [n] |
| NumberSerie.CommaConcatenation | parsing/number-serie.go:26-27 | two accepted series joined by ',' form an accepted serie, whose expansion is the first expansion followed by the second |
| NumberSerie.ChainOfPieces | parsing/number-serie.go:33-61 | digit strings joined by ':' form one accepted group, which expands to the chain of their values |
| NumberSerie.SegmentElements | parsing/number-serie.go:52-60 | "n:m" holds every integer from n to m inclusive: |m-n|+1 numbers, ascending or descending |
| NumberSerie.SegmentSteps | parsing/number-serie.go:52-60 | consecutive numbers of a range differ by exactly one, in the range's direction |
| NumberSerie.RangeGroup | parsing/number-serie.go:33-60 | "n:m" expands to the range from n to m when n != m, with no error for n > m, and to nothing when n == m |
| NumberSerie.SegmentWithin | parsing/number-serie.go:52-60 | a range between two bounds stays within them |
| NumberSerie.ChainWithin | parsing/number-serie.go:43-60 | every number of a chain lies between the smallest and largest numbers written in its group |
| NumberSerie.GroupWithin | parsing/number-serie.go:28-60 | every number a group expands to lies between the smallest and largest numbers written in it |
| NumberSerie.ChainStopsAtEqualPair | parsing/number-serie.go:38-40 | an equal adjacent pair ends its group: the ranges before it are kept and everything written after it is dropped |
| NumberSerie.TableNumerals | parsing/number-serie_test.go:28-35 | the digit strings of the expansion test table are numerals of their values |
| NumberSerie.SingleGroup | parsing/number-serie.go:26-27 | the expansion of a list of one group is that group's expansion |
| NumberSerie.OneGroup | parsing/number-serie.go:26 | an accepted serie without ',' is expanded as a single group |
| NumberSerie.RangeExample | parsing/number-serie.go:33-40 | "n:m" for any numerals n and m gives the range from n to m, or nothing when they are equal |
| NumberSerie.LoneExamples | parsing/number-serie_test.go:29-30 | "1" gives [1] and "1,3" gives [1, 3] |
| NumberSerie.RangeUpExample | parsing/number-serie_test.go:31 | "1:4" gives [1, 2, 3, 4] |
| NumberSerie.EqualPairExample | parsing/number-serie.go:38-39 | "1:1" gives the empty list |
| NumberSerie.GroupsExample | parsing/number-serie_test.go:32 | "1:3,5:7,10" gives [1, 2, 3, 5, 6, 7, 10] |
| NumberSerie.ChainExample | parsing/number-serie_test.go:33 | "1:3:1:3" gives [1, 2, 3, 2, 1, 2, 3]: shared endpoints are not repeated |
| NumberSerie.ShortChainExample | parsing/number-serie_test.go:34 | "1:3:2" gives [1, 2, 3, 2] |
| NumberSerie.ChainValues | parsing/number-serie.go:43-51 | the chain of 1, 3, 1, 3 is [1, 2, 3, 2, 1, 2, 3] |
| NumberSerie.ShortChainValues | parsing/number-serie.go:43-51 | the chain of 1, 3, 2 is [1, 2, 3, 2] |
| QuestionBank.NewQA | datamodel/questions_answers.go:11-16 | a fresh bank is valid, with count 0 and no pairs; it is nil (the zero value) exactly in the older copies |
| QuestionBank.QA.GetCount | datamodel/questionsanswers.go:16-22 | the count is 0 for nil slices and the number of questions for a valid bank, so the nil-aware and plain versions agree |
| QuestionBank.QA.WithEntry | datamodel/questions_answers.go:34-37 | AddEntry makes (q, a) the last pair, keeps the earlier pairs, and adds one to the count of a valid bank |
| QuestionBank.QA.Concat | datamodel/questions_answers.go:40-49 | Concatenate keeps the existing pairs in front, and keeps questions and answers matched |
| QuestionBank.ConcatCount | datamodel/questions_answers.go:40-49 | Concatenate adds the sum of the argument counts to the count |
| QuestionBank.ConcatEmptyBanks | datamodel/questions_answers.go:43-47 | Concatenate with no argument, or with only empty banks, changes nothing |
| QuestionBank.ConcatOne | datamodel/questions_answers.go:44-46 | a non-empty argument's questions and answers are appended after the existing ones |
| QuestionBank.ConcatSplit | datamodel/questions_answers.go:42 | the arguments are processed left to right, so they may be split anywhere |
| QuestionBank.VariantsAgree | datamodel/questionsanswers.go:11-40 | after the same AddEntry/Concatenate calls, the zero-value and the empty-slice NewQA hold the same pairs and report the same count |
| QuestionBank.ConcatAgree | datamodel/questionsanswers.go:31-40 | concatenating onto two banks with the same pairs and count gives banks with the same pairs and count |
| QuestionBank.ConcatenateExample | datamodel/datamodel_test.go:35-47 | a bank of one pair concatenated with a bank of two pairs counts 3 |
| QuestionBank.QuestionsAnswers.constructor | datamodel/questions_answers.go:11-16 | `qa := NewQA()` holds the fresh bank of the chosen copy |
| QuestionBank.QuestionsAnswers.AddEntry | datamodel/questions_answers.go:34-37 | the variable now holds its old bank with (q, a) appended |
| QuestionBank.QuestionsAnswers.Concatenate | datamodel/questions_answers.go:40-49 | the loop appends the pairs of every non-empty argument, in argument order |
| Topics.Fetch | datamodel/topic.go:23 | a missing id reads as Go's zero bank: nil, valid, count 0 |
| Topics.GetOrCreate | datamodel/topic.go:22-29 | a stored non-nil bank is returned and nothing changes; otherwise a fresh NewQA is stored under the id and returned; the count returned is the stored one |
| Topics.BuildSetBanks | datamodel/topic.go:62-75 | BuildQuestionsSet(ids...) is the concatenation of the banks of the ids in the given order, repeats included; the GetSubsection calls leave every non-empty bank unchanged |
| Topics.BuildSetKeys | datamodel/topic.go:70-73 | afterwards every id asked for is stored, an unknown one as an empty subsection, even though the receiver is a value, and no other id is added |
| Topics.BuildSetKeeps | datamodel/topic.go:70-73 | every non-nil bank of the topic is still stored, unchanged |
| Topics.BuildSetCount | datamodel/topic.go:62-75 | the count gathered is the sum of the counts of the selected banks |
| Topics.EnumerationCount | datamodel/topic.go:47-56 | whatever the order of the names, the sum of their bank counts is the total count of the topic |
| Topics.AllSubsectionsCount | datamodel/topic.go:66-73 | with no ids, the count is the total count of all banks, whatever the map order, and no id is added |
| Topics.Topic.constructor | datamodel/topic.go:13-17 | NewTopic has no subsection |
| Topics.Topic.GetSubsectionsCount | datamodel/topic.go:38-44 | the count is 0 exactly when no subsection is stored |
| Topics.Topic.GetSubsection | datamodel/topic.go:22-29 | the returned bank and the new map are GetOrCreate of the old map; datamodel.go:120-127 and cmd/lib.go:115-122 are the same code |
| Topics.Topic.SetSubsection | datamodel/topic.go:33-35 | the id now maps to the bank, overwriting; every other id keeps its bank |
| Topics.Topic.GetSubsectionsName | datamodel/topic.go:47-56 | every stored id appears exactly once, and there are GetSubsectionsCount of them |
| Topics.Topic.BuildQuestionsSet | datamodel/topic.go:62-75 | with ids, the result and the new map are BuildSet over the ids; with none, BuildSet over some enumeration of the stored ids, whose count is the total count; datamodel.go:178-192 and cmd/lib.go:210-224 are the same code |
| Topics.Topic.Gather | datamodel/topic.go:70-73 | the loop runs GetSubsection then Concatenate for each id in turn |
| LessonsStream.NewLessonTopic | parsing/lessons-stream.go:39-41 | the topic starts with no subsection and both counters at 0 |
| LessonsStream.Entry | parsing/lessons-stream.go:78-83 | an entry line splits into the text before the first separator, which does not hold the separator, and everything after it; question + SEP + answer gives the line back |
| LessonsStream.Start | parsing/lessons-stream.go:53-54 | after the header, the topic carries the two language names, no section is open, and the current bank is empty |
| LessonsStream.ParseErrors | parsing/lessons-stream.go:28-56 | a missing parameter is reported before any line is read, and only then; no line gives the empty topic; a first line that is not a header is reported with that line |
| LessonsStream.ParseTopic | parsing/lessons-stream.go:27-99 | the loop over the lines, with the header first, gives the outcome of the specification Parse |
| LessonsStream.ReadLine | parsing/lessons-stream.go:57-96 | one pass of the loop body on a line after the header is one Step of the reading |
| LessonsStream.GetVocabularySubsection | parsing/lessons-stream.go:68 | get-or-create in the vocabulary family; nothing else in the topic changes |
| LessonsStream.GetSentencesSubsection | parsing/lessons-stream.go:74 | get-or-create in the sentences family; nothing else in the topic changes |
| LessonsStream.HeaderRoundTrip | parsing/lessons-stream.go:45-56 | "#native SEP learnt", with no SEP in the names, gives back the two names, space-trimmed |
| LessonsStream.EmptyHeaderRejected | parsing/lessons-stream.go:48-51 | an empty first line is not a header: the file is rejected |
| LessonsStream.EntryOfLine | parsing/lessons-stream.go:78-83 | the line q + SEP + a, with no SEP in q, is the entry (q, a) |
| LessonsStream.EntryStored | parsing/lessons-stream.go:83-90 | an entry is added to the current bank; within a section, the bank is stored under the current id and that section's counter goes up by one; before any section the topic does not change |
| LessonsStream.LessonAnnounced | parsing/lessons-stream.go:65-70 | a separator-less lesson announce opens the vocabulary subsection named by the rest of the line (get-or-create); the sentences and the counters are kept |
| LessonsStream.SentenceAnnounced | parsing/lessons-stream.go:71-76 | a separator-less sentence announce that is not also a lesson announce opens the sentences subsection named by the rest of the line |
| LessonsStream.OtherLineIgnored | parsing/lessons-stream.go:64-77 | a separator-less line that announces no section changes nothing |
| LessonsStream.BlankLinesIgnored | parsing/lessons-stream.go:57-58 | reading the lines is reading their non-blank lines |
| LessonsStream.StepConsistent | parsing/lessons-stream.go:58-96 | every line keeps the banks valid, the open subsection stored under the current id, and each counter equal to the entries stored in its family |
| LessonsStream.LinesConsistent | parsing/lessons-stream.go:43-97 | any sequence of lines keeps that invariant |
| LessonsStream.ParsedCounts | parsing/lessons-stream.go:84-90 | a parsed topic has valid banks, and its vocabulary and sentence counters are the numbers of entries stored in each family |
| LegacyParsing.Defaults | parsing.go:16-27 | with no argument: not interactive, a wait of two seconds, random mode, no subsection, limit 1, not reversed |
| LegacyParsing.Wrap64 | parsing.go:37 | 64-bit signed arithmetic: the result is an int64 congruent to its argument modulo 2^64, and the argument itself when it is in range |
| LegacyParsing.DurationRange | parsing.go:37 | a wait of up to 9223372036854 ms becomes that many milliseconds exactly; one more millisecond overflows to a negative duration |
| LegacyParsing.Parse | parsing.go:15-52 | the loop over the arguments gives the result of the specification ParseArgs, in which every argument is matched, option values included |
| LegacyParsing.ParseFromAppend | parsing.go:28-50 | after arguments that parse without error, more arguments continue from the options reached, so later options override earlier ones |
| LegacyParsing.ParseAppend | parsing.go:28-50 | the same, from the defaults |
| LegacyParsing.WaitOption | parsing.go:32-37 | "-t d" sets the wait to d ms, as a 64-bit time.Duration, when d is an integer within the int64 range; otherwise, out-of-range numerals included, parsing stops with an error carrying d and the options so far |
| LegacyParsing.SummaryWins | parsing.go:43-44 | "-s" selects summary mode whatever mode was chosen before |
| LegacyParsing.ValueReadAsOption | parsing.go:45-48 | the value of "-l" is matched as an option too: "-l -r" selects subsection "-r" and reverses |
| LegacyParsing.MissingValue | parsing.go:32-46 | "-t", "-m" or "-l" in last position indexes past the end of the arguments |
| LegacyParsing.ListOfSubsections | datamodel.go:88-93 | nothing for an empty option; otherwise at least one comma-free piece, and the pieces joined by commas give the option back |
| LegacyParsing.SubsectionsRoundTrip | datamodel.go:92 | comma-free names joined by commas are split back into the same names |
| LegacyParsing.Blanks | parsing.go:60 | `make([]string, 50)`: fifty empty lines |
| LegacyParsing.ParseTopic | parsing.go:56-89 | after the fifty blank lines and the input, the loop on the fresh Topic of NewTopic, with a zero-value current bank, leaves the map of the specification ParseTopicSpec; cmd/lib.go:153-186 is the same code |
| LegacyParsing.BlanksIgnored | parsing.go:60-71 | the fifty blank lines, like all blank lines, are ignored |
| LegacyParsing.StepCounts | parsing.go:71-85 | every line keeps the banks valid and the current bank stored under the current id; an entry line adds one to the total count and any other line adds nothing |
| LegacyParsing.OpenCounts | parsing.go:74-78 | an announce keeps the reading consistent and the total unchanged |
| LegacyParsing.StoreCounts | parsing.go:83-84 | storing the current bank with one more entry adds one to the total |
| LegacyParsing.LinesCount | parsing.go:68-87 | over any lines, the total grows by the number of entry lines |
| LegacyParsing.EveryEntryStored | parsing.go:79-84 | no entry is lost: the parsed topic has valid banks and holds as many entries as the input has entry lines, those before any announce under the id "" |
| LegacyParsing.EntryStored | parsing.go:79-84 | an entry line appends (before the first separator, the rest joined back) to the current bank and stores it under the current id; the two parts rebuild the line |
| LegacyParsing.OtherLineIgnored | parsing.go:74-78 | a separator-less line that is not an announce changes nothing |
| LegacyParsing.Announced | parsing.go:74-78 | an announce opens its subsection: a bank stored with entries is resumed, otherwise the zero bank is stored and becomes current; other subsections keep their banks |
| Session.IndexAt | engine/ask.go:47-50 | the index of every pair is within the bank: a draw in [0, N), k mod N, or 0 |
| Session.ScheduleAt | engine/ask.go:38-71 | the definition of the pair order, read back: one pair per question per pass, pair k being the bank's pair at its index, swapped when reversed; LinearReplay, RandomDraws and ReversedSwaps state what that order is |
| Session.Flatten | engine/ask.go:58-66 | Qachan carries two strings per pair |
| Session.FlattenIndex | engine/ask.go:58-66 | pair k's question is the 2k-th string on Qachan and its answer the next one |
| Session.CommandsSentNext | engine/ask.go:59-62 | one pair further, Command has carried one more input line in interactive mode while the input lasts, and nothing more otherwise |
| Session.PairEvents | engine/ask.go:57-66 | a pair's events start with the question's send and end with the answer's, with at most one event between them |
| Session.PairQa | engine/ask.go:58-66 | a pair sends its question then its answer on Qachan, and pauses once unless interactive |
| Session.PairCommand | engine/ask.go:59-62 | a pair sends on Command the line read for it: the next input line in interactive mode while the input lasts, else nothing |
| Session.PairSent | engine/ask.go:58-66 | in the order they are sent, a pair's strings are its question, the line read for it if any, and its answer |
| Session.SessionTrace | engine/ask.go:40-44 | a session's events end with the closing of both channels |
| Session.SessionChannels | engine/ask.go:37-72 | read channel by channel, the session's events are every scheduled pair on Qachan, the input lines read on Command, and one pause per pair unless interactive |
| Session.NextPair | engine/ask.go:47-56 | pair k shows the bank's pair at the index of the schedule, swapped when reversed, and the index moves on to k+1 mod N where it advances (engine/ask.go:68-70) |
| Session.AskPair | engine/ask.go:57-66 | one pair's sends and pause follow the events before it, and one more input line is counted as read in interactive mode while the input lasts |
| Session.AskQuestions | engine/ask.go:18-75 | with no question, the current copy stops before anything is sent; otherwise its events are the session trace, which carries every scheduled pair on Qachan, the input lines read on Command (one per pair, none after end of input), one pause per pair unless interactive, and ends with the closing of both channels |
| Session.SessionQaItems | engine/ask.go:37-72 | L·N pairs are sent (none for L < 1), each question followed by its answer |
| Session.LinearReplay | engine/ask.go:68-70 | outside random mode (linear mode only, in the older copies) pair k is the bank's pair k mod N: the bank is replayed in order once per pass |
| Session.RandomDraws | engine/ask.go:47-49 | in random mode every pair uses its own draw, which is within the bank |
| Session.ReversedSwaps | engine/ask.go:50-56 | reversed mode shows the stored answer as the question and the stored question as the answer, for the same index |
| Session.CopiesAgree | ask.go:36-57 | outside summary mode the older copies ask exactly the pairs the current one asks |
| Session.SummaryDiffers | ask.go:55-57 | in summary mode the older copies ask the first pair every time, while the current one walks through the bank |
| Session.CommandsArePrefix | engine/ask.go:59-62 | Command carries a prefix of the input, one line per pair while it lasts, and nothing when not interactive: end of input never blocks the session |
| Relay.FanOutChannel | engine/channels.go:16-30 | the fan-out forwards the non-empty strings, in order, until the channel is closed |
| Relay.NonEmptyAppend | engine/channels.go:19-28 | forwarding distributes over what was sent before and after |
| Relay.NonEmptyMembers | engine/channels.go:25-27 | a string is forwarded if and only if it was sent and is not empty |
| Relay.NonEmptyKeepsAll | engine/channels.go:25-27 | when nothing sent is empty, everything is forwarded as sent |
| Relay.NonEmptyDrops | engine/channels.go:25 | an empty string is lost: fewer strings are forwarded than were sent |
| Relay.PairOutput | engine/channels.go:62-66 | a question and its answer print as the question, "     --> ", the answer, a newline and a line of 27 dashes |
| Relay.PublishChanToWriter | engine/channels.go:34-70 | the publisher loop writes the rendering of the specification Render, and ends as it does |
| Relay.StepLimit | engine/channels.go:43-48 | at the top of a pass beyond the limit the publisher writes the limit line and returns |
| Relay.StepEnd | engine/channels.go:42-57 | with no item left, the publisher has written the banner if a pass was due, then waits, or returns if the channel is closed |
| Relay.InPass | engine/channels.go:58-67 | the items inside a pass are written as question/answer pairs with no banner between them |
| Relay.PassStart | engine/channels.go:43-67 | a pass begun below the limit is a banner followed by its pairs |
| Relay.RenderOpening | engine/channels.go:40-66 | the output opens with "Nb of questions: N", "Loop (1/L)", then the first question, its answer and a separator |
| Relay.FullPasses | engine/channels.go:42-67 | with enough items, every pass from the current one to the limit is a banner "Loop (k/L)" and its pairs, and the publisher stops at the limit |
| Relay.RenderComplete | engine/channels.go:34-70 | with at least 2·N·L items: the header, L passes of a banner and N pairs each, then the limit line, so no more than 2·N·L items are read |
| Relay.ShortRun | engine/channels.go:53-57 | with fewer items than the limit needs, the limit line is never written |
| Relay.RenderShort | engine/channels.go:53-57 | with fewer than 2·N·L items, there is no limit line, and the rendering ends as the channel does |
| Relay.EndsOnChannel | engine/channels.go:45-57 | the publisher stops at the limit or where the channel stops |
| Drill.Arrival | engine/ask.go:58-66 | Qachan's items with a command line after each question, while there are command lines: every item of both is kept when there are at most half as many command lines as Qachan items |
| Drill.TraceSent | engine/ask.go:58-66 | the strings a session sends on both channels, in order, are Qachan's items with the command lines slotted in after their questions |
| Drill.PublishedArrival | engine/channels.go:16-28 | the publisher reads the non-empty strings of Qachan with the non-empty command lines slotted in after their questions |
| Drill.ArrivalNonEmpty | engine/channels.go:25-27 | the fan-outs forward as many strings as Qachan's and Command's non-empty strings added up |
| Drill.AskQuestionsAndRender | engine/ask.go:18-75 | an empty bank stops the current copy before any goroutine starts; otherwise the output is the publisher's rendering of what the fan-outs forward from the session, and AskQuestions returns exactly when 2·N·L items are forwarded (engine/ask.go:74, engine/channels.go:43-48) |
| Drill.DrillReturns | engine/channels.go:34-70 | when exactly 2·N·L items are forwarded, the output is the header, L passes of a banner and pairs, and the limit line |
| Drill.FlattenPresent | engine/channels.go:25-27 | when no question or answer is empty, everything on Qachan reaches the publisher |
| Drill.RenderPresent | engine/channels.go:34-70 | such a stream of L·N pairs is rendered completely: header, L passes, limit line |
| Drill.ArrivalEmptyCommands | engine/channels.go:25-27 | empty command lines slotted in between Qachan's items are all dropped: the fan-outs forward only Qachan's non-empty items |
| Drill.PublishedWithoutCommands | engine/ask.go:59-62 | without interaction, or when every line typed is empty (Return pressed), the publisher reads exactly Qachan's non-empty items |
| Drill.DrillCompletes | engine/ask.go:37-74 | a drill whose texts are all present, non-interactive or with every typed line empty, prints the header, L passes of a banner and the session's pairs, and the limit line, and exactly 2·N·L items are forwarded, so AskQuestions returns |
| Drill.RenderMissing | engine/channels.go:25-57 | a stream with an empty text is short of items: the publisher never reaches the limit and stays blocked on its receive |
| Drill.DrillStalls | engine/ask.go:74 | a drill, non-interactive or with every typed line empty, that shows an empty question or answer forwards fewer than 2·N·L items: it never prints the limit line, and its publisher stays blocked on its receive, so AskQuestions never returns |
| Drill.NonEmptyFront | engine/channels.go:25-27 | the fan-out keeps the first two strings of a group when both are non-empty |
| Drill.RenderCommandFirst | engine/channels.go:58-67 | a command line arriving after the first question is rendered where the answer was due |
| Drill.CommandTakesAnswerPlace | engine/ask.go:58-62 | in interactive mode a non-empty line typed after the first question is printed after the arrow, in the answer's place |
| Drill.InteractiveSurplus | engine/ask.go:59-62 | in interactive mode a non-empty typed line, with all texts present, makes more than 2·N·L items forwarded: one is left unread and AskQuestions never returns |
| Drill.PairWritesFlatten | engine/channels.go:58-67 | read as pairs, what Qachan carries is rendered pair by pair |
| Drill.PassItems | engine/ask.go:68-70 | pass k of a replaying session carries the whole bank, in order |
| Drill.RepeatedPasses | engine/channels.go:43-50 | when every pass carries the same block, the rendering repeats a banner and that block's pairs up to the limit |
| Drill.ReplayedPasses | engine/ask.go:38-46 | every pass of a replaying session carries the bank |
| Drill.ScheduleTexts | engine/ask.go:50-56 | a bank without empty texts gives a session without empty texts |
| Drill.LinearDrill | engine/ask.go:37-72 | a linear drill over non-empty texts, non-interactive or with Return pressed for every pair as in engine/ask_test.go:230-269, prints the header, then for each of the L passes its banner and every pair of the bank in stored order, then the limit line |
| Language.NewLesson | datamodel/language.go:100-107 | the lesson carries the given ID and an empty title, vocabulary and sentences |
| Language.MaxId | datamodel/language.go:76-83 | the running maximum from 0 is non-negative and at least every ID |
| Language.MaxIdAttained | datamodel/language.go:78-82 | the running maximum is 0 or the ID of some lesson |
| Language.NextId | datamodel/language.go:84 | the new ID is at least 1, 1 for no lesson, and greater than every existing ID |
| Language.AppendNext | datamodel/language.go:66-85 | adding a lesson under the next ID keeps IDs distinct, and the next ID after it is one more: successive creations give strictly increasing IDs |
| Language.NextIdAppend | datamodel/language.go:66-71 | after a creation, the next ID is one more than the one just used |
| Language.LanguageResources.constructor | datamodel/language.go:58-62 | a new resource has no lesson |
| Language.LanguageResources.GetLessonsCount | datamodel/language.go:53-55 | the number of lessons; Language.GetLessonsCount at datamodel/language.go:23-25 delegates to it |
| Language.LanguageResources.GetIDForNewLesson | datamodel/language.go:75-85 | the loop gives NextId: 1 for no lesson, otherwise greater than every ID |
| Language.LanguageResources.CreateNewLesson | datamodel/language.go:66-71 | exactly one empty lesson is appended at the end under the returned ID, which is NextId of the old lessons; earlier lessons are unchanged and the count goes up by one |
| Converter.PaddedLength | tools/converter.go:12 | for a width in range, each entry is as long as the larger of the width and the unpadded number |
| Converter.WideEnough | tools/converter.go:12 | a number with at least `numberOfDigits` characters comes out unpadded and untruncated |
| Converter.ZeroPadded | tools/converter.go:12 | the padding is zeros between the sign and the digits |
| Converter.ReadBack | tools/converter.go:12 | strconv.Atoi reads each entry back as the number it came from, negative numbers included |
| Converter.LeftJustified | tools/converter.go:12 | a negative width left-justifies: the number, then spaces up to the width's magnitude |
| Converter.ConvertToStringsArray | tools/converter.go:9-15 | the output has the input's length and order, each entry `%0*d` of its number; for a width in range each entry is at least that wide and reads back as its number |
| Display.RepeatedPattern | tools/display.go:178-185 | the pattern max - limit times when max > limit, exactly once otherwise, so never empty for a non-empty pattern; each character is the pattern's at its position modulo the pattern's length |
| Display.Longest | tools/display.go:164-169 | the first loop's result is at least the byte length of every message, and 0 for none |
| Display.LongestAttained | tools/display.go:165-168 | some message is exactly as long as the longest |
| Display.SummaryLines | tools/display.go:170-173 | one line per message, in order |
| Display.Summary | tools/display.go:162-174 | one line per message, in order, each the message padded with spaces according to the longest |
| Display.SummaryWidth | tools/display.go:170-173 | a shorter message is padded to the longest byte length; the longest messages still get one space |
| Display.Dots | tools/display.go:196 | the dot leader has 80 minus the message's rune count dots, and at least one |
| Display.StatusLine | tools/display.go:193-199 | the message, a space and the leader make 81 runes for messages under 80 runes; the status follows between brackets |
| Display.StatusAligned | tools/display.go:207-212 | below 80 runes every Success or Failure line puts its status bracket at the same column |

## Left out

- Input and output are values. The bufio scanner, file reading and writing to a terminal are not modelled. LoadLessons (JSON decoding) and ParseLanguageFile (opening the file) are not part of this model. Scanner errors and over-long lines are not modelled.
- Colours: the ANSI sequences around the banner and the status lines, the Debug traces, and the fmt.Println messages of BuildQuestionsSet and of the publisher. The process exit on an empty question set becomes the `EmptyQuestionSet` outcome.
- Concurrency. The drill fixes one interleaving of the three goroutines: each command line reaches the publisher after its question and before its answer. Other schedules, such as a command overtaking its question, are not modelled.
- Drill.AskQuestionsAndRender: a drill that does not return ends in the `Blocked` state, where every goroutine is blocked for good. The model stops there. It does not model how Go's runtime then aborts the built program with a fatal "all goroutines are asleep" deadlock error, or how a test keeps running until its timeout.
- Relay.PublishChanToWriter: the question text is Fprintf's format string (engine/channels.go:62, cmd/lib.go:272), and so is the answer inside "     --> " + answer + "\n" (engine/channels.go:65, cmd/lib.go:275). The model writes both verbatim, which is what Go prints only for texts free of '%'. A '%' would be read as a verb and printed as, for instance, "%!d(MISSING)".
- Relay.PairOutput: for the same reason, its question and answer appear verbatim only when they hold no '%'.
- Display.StatusLine: the status text of Success and Failure passes through Printf twice; the model writes it verbatim, which again holds only for text free of '%'.
- Session.AskQuestions: time.Sleep becomes a count of pauses. The duration and its conversion into a time.Duration are not modelled, including the missing unit at cmd/root.go:73.
- Session.AskQuestions: rand.Int31n becomes a caller-supplied sequence of draws below N, and int32 truncation of N is not modelled.
- Session.AskQuestions: the older copies divide by zero on an empty bank. The model requires a non-empty bank for them instead of modelling the panic.
- LegacyParsing.Parse models the 64-bit bounds where they show: strconv.Atoi rejects a "-t" value outside the int64 range, and the product with time.Millisecond wraps around. Elsewhere integers are unbounded. The counts, counters and lengths of the parsers stay far below 2^63 for any input that fits in memory.
- NumberSerie.ParseNumberSerie: an out-of-range numeral would make Go read the clamped largest int; the model reads its exact value. The doc comment promises an error for n > m, which the code never raises; the model follows the code.
- LessonsStream.ParseTopic: on an error Go also returns an empty topic; the model returns only the error.
- LessonsStream.ParseTopic: it calls Topic methods (GetVocabularySubsection, SetVocabularySubsection, IncreaseVocabularyCount and their sentence twins) that the Topic of `datamodel/topic.go` does not have. The file that defines them is not part of this model. They are modelled on topic.go's GetSubsection and SetSubsection.
- GetListOfSubsections of `cmd/lib.go:83-88` returns the stored slice, or nil when it is empty. Dafny has one empty sequence, so this is the identity and has no member.
- Language.LanguageResources.GetIDForNewLesson: lesson IDs are unbounded integers. The int64 wrap of `ID + 1` at datamodel/language.go:84, which turns an ID of 2^63-1 into -2^63, is not modelled, so Language.NextId's "greater than every existing ID" holds only for IDs below 2^63-1.
- Language.NextId: for the same reason, it is the mathematical maximum plus one; Go's result differs only when some ID is 2^63-1.
- Language.AppendNext: the distinct, increasing IDs of successive creations are proved one creation at a time, not for n creations in one lemma.
- Display.Summary measures messages in bytes; Success and Failure measure them in runes. Strings are sequences of code points, so invalid UTF-8 is not modelled.
- The "%0*d" formatting of `tools/converter.go:12` follows the fmt package: a negative width left-justifies, and a magnitude over 10^6 gives "%!(BADWIDTH)". Integers are unbounded, so int64 limits on the values and the width are not modelled.
