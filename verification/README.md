# A verified model of lnav's message parser and the algorithms around it

lnav reads log files. For a message in no known format it discovers a schema: the message's tokens are
folded into groups, the groups are regrouped into key/value pairs, and the pairs are written as JSON.
This project models that parser, and the other algorithmic cores of lnav: the SQL aggregates and UTF-8
string functions, the outline of a document, the scanner's bracket tracking, the URL polling loop, the
long-poll rendezvous and the CSV writer.

Code that changes things in place is modelled by classes and methods with loops, each proved against a
function that says what it computes; what the code is for is then proved of that function.

| file | what it models |
|---|---|
| `Tokens.dfy`, `Elements.dfy` | the tokens, elements, element lists and their ordering assertion |
| `FormatStates.dfy` | the state machines that decide the format of a level |
| `GroupFolding.dfy` | recursive descent as the reference for the fold, and the stack machine that refines it |
| `KeyScan.dfy` | the backward scan over key components, with a closed form |
| `Regrouping.dfy`, `RegroupOrder.dfy` | `pairup` and `end_of_value` as functions, and why they keep text order |
| `PairUp.dfy`, `MessageParser.dfy` | the same as loops over lists, and the parser object with its stacks |
| `JsonWriter.dfy`, `ColumnNames.dfy` | the JSON writer, and a reader for its events; a message whose names collide |
| `OrderStatistics.dfy`, `Variance.dfy` | the counted search tree under mode, median and quartiles; the one-pass variance |
| `Utf8.dfy`, `TextFunctions.dfy` | the UTF-8 reader, the two ways of stepping, and the SQL string functions |
| `Outline.dfy`, `Walker.dfy` | the stack of open headings, and the structure walker's four stacks |
| `Brackets.dfy` | bracket tracking, the search for a matching bracket, and the card checksum |
| `CurlLooper.dfy`, `LongPoll.dfy` | the life cycle of polled requests; the long-poll rendezvous as atomic steps |
| `Csv.dfy` | the CSV writer and a reader after RFC 4180, section 2 |
| `Options.dfy`, `Sequences.dfy` | a value that may be absent; associativity of concatenation |

Conventions. A list is a sequence value. Lists that are copied (which in the source moves the children) are
modelled as ownership that is handed over: what stays behind is `Elements.MovedFrom`. `PushBack` has the
source's own ordering assertion as its precondition, so every call has to show it. The scanner is an oracle:
its tokens are any sequence with ordered, disjoint captures in which, as in `src/data_scanner_re.re`, a comma
is that character, `=` and `:` are one character long, an empty container two, and a unit never comes first
in its group. UTF-8 text is a sequence of bytes together with the characters it spells; `=` on text means
equality of bytes. Aggregates compute over the reals.

Where the code does not do what it is meant to:

- A message that ends in opening brackets leaves one format state behind for each of them, so every level
  left open around them gets the format that the tokens of a deeper level decide: the level as many deeper
  as the message has brackets at its end (`GroupFolding.MisalignedIs`; `GroupFolding.UnfinishedMessage` for
  `a = b (`). The tree is the right one all the same exactly if those two levels decide the same format, for every
  level left open (`GroupFolding.MisalignedTreeIff`, `MessageParser.DataParser.DiscoverFormat`). The states end up
  as high as the groups exactly if the last token opens nothing.
- A JSON map of pairs has distinct names exactly if no key spells a `col_N` made up for another
  (`JsonWriter.NamesDistinctIff`); the map written for `col_0=1,2` has one name twice (`ColumnNames.NamesCollide`).
- Integers reach mode and percentiles through a pointer to a 32-bit integer. A mode is right exactly if it fits
  (`OrderStatistics.ModeRightIff`); a percentile exactly if the one value it selects fits, or if what the two
  values it selects lose cancels out (`OrderStatistics.PercentileRightIff`, with an example for each way in
  `OrderStatistics.WideIntegerMedian` and `OrderStatistics.WideIntegersCancel`).
- U+FFFE and U+FFFF are read as U+FFFD (`Utf8.DecodeInverts`), so `charindex` can find a character that is not
  there. Its answers are right for every text exactly if the needle has none of the three
  (`TextFunctions.CharIndexRightIff`, `TextFunctions.ReplacementMatches`), and for every text without U+FFFE and
  U+FFFF exactly if the needle has neither of those two (`TextFunctions.CharIndexRightWithinIff`).
- Four-byte forms past U+10FFFF are not refused: those are exactly the complete sequences read as something that
  is no character (`Utf8.BeyondUnicodeIff`, `Utf8.BeyondUnicode`).
- A section is empty exactly if a heading that closes it is on its own line, past the first
  (`Outline.SectionEmptyIff`, `Outline.EmptySection`).

## Model

The main results come first, up to `Csv.WriteAndRead`; the steps that lead to them follow file by file.

| member | source | states |
|---|---|---|
| `GroupFolding.MachineBuildsTree` | src/data_parser.cc:565-684 | three parallel stacks, closed at the end of the input, build the tree of the recursive descent |
| `GroupFolding.TreeConservesTokens` | src/data_parser.cc:565-684 | flattening the tree gives the tokens without opening and matched closing brackets: none lost, doubled or moved |
| `MessageParser.DataParser.DiscoverFormat` | src/data_parser.cc:565-684 | any message folds into a tree in text order that keeps its tokens, and into exactly the tree of its misaligned levels, formats included; that is the recursive descent's tree exactly if every level left open has the format that the level d deeper decides, d being the number of opening brackets at the end, and always if d is 0; states and groups end equally high exactly if d is 0 |
| `GroupFolding.MisalignedIs` | src/data_parser.cc:667-680 | when a message ends in d opening brackets the levels they open are gone, and every other open level has its elements and the tokens of the level d deeper |
| `GroupFolding.MisalignedTreeIff` | src/data_parser.cc:667-683 | closing open levels with the tokens of the level d deeper, d being the number of empty levels on top, gives the tree of their own tokens exactly if each of them has the format that the level d deeper decides |
| `KeyScan.ScanKeyComps` | src/data_parser.cc:103-266 | the scan always ends, and its six results are those of a closed form over the components |
| `RegroupOrder.RegroupInOrder` | src/data_parser.cc:52-563 | for every group tree and at every depth the pairs read left to right, do not overlap, lie inside the level and are well shaped, and at the top level all are pairs |
| `MessageParser.DataParser.Pairup` | src/data_parser.cc:52-563 | the recursion over groups with its splices computes the regrouping, so its pairs are in text order and well shaped |
| `MessageParser.DataParser.Parse` | src/data_parser.cc:901-908 | from tokens to pairs: the folded tree keeps the tokens, and every pair lies in order inside the input |
| `JsonWriter.ReadEmit` | src/elem_to_json.cc:36-229 | what is written for a value reads back as that value, whatever follows it |
| `JsonWriter.MessageIsOneValue` | src/elem_to_json.cc:188-229 | the pairs of every message are written as exactly one value |
| `JsonWriter.NoElementDropped` | src/elem_to_json.cc:92-229 | an empty list becomes null, a single pair at the root a map of one member, or the value itself for a group without a key, and any other list an array or a map with one entry per element, in order |
| `JsonWriter.NamesDistinctIff` | src/elem_to_json.cc:115-124 | the names of a map are distinct exactly if no key spells one that is made up |
| `ColumnNames.NamesCollide` | src/elem_to_json.cc:92-124 | the message `col_0=1,2`, as the scanner returns it, regroups into a pair with that key and one without, and is written as a map with `col_0` twice |
| `OrderStatistics.WalkFindsPercentile` | src/extension-functions.cc:1940-2000 | median and quartiles are the mean of the values at ceil(nq) - 1 and floor(nq) |
| `OrderStatistics.ModeCtx.PercentileFinalize` | src/extension-functions.cc:1940-2000 | NULL without values; else the percentile of any sorted arrangement of the stored values as they are read, which is the true one exactly if the selected values survive being read |
| `OrderStatistics.PercentileRightIff` | src/extension-functions.cc:1901 | the mean of the values read is the mean of the values stored exactly if the single selected value fits in 32 bits, or the multiples of 2^32 that two of them lose add up to 0; enough is that all values fit |
| `OrderStatistics.ModeCtx.ModeFinalize` | src/extension-functions.cc:1917-1934 | NULL exactly if no value is the most frequent alone; otherwise that value as it is read, which is the value itself exactly if it fits |
| `Variance.VarianceOf` | src/extension-functions.cc:1770-2030 | a whole aggregation is the sample variance of the values that are not NULL |
| `Utf8.DecodeInverts` | src/extension-functions.cc:522-544 | reading inverts the encoding of RFC 3629, section 3, exactly for the scalar values other than U+FFFE and U+FFFF |
| `Utf8.BeyondUnicodeIff` | src/extension-functions.cc:522-544 | of complete sequences, exactly those with a payload past U+10FFFF are read as something that is no character, and as that payload |
| `Utf8.StepsAgree` | src/extension-functions.cc:554-591 | on well-formed text the table and the bit test lead from every boundary to the next, and nowhere else |
| `TextFunctions.CharIndex` | src/extension-functions.cc:1377-1409 | one plus the least place from n - 1 on at which the needle is read, 0 exactly if there is none or the needle is empty; that is its first occurrence if the needle has no U+FFFD, U+FFFE and U+FFFF, and also if neither text has U+FFFE or U+FFFF |
| `TextFunctions.CharIndexRightIff` | src/extension-functions.cc:1377-1409 | what `charindex` answers is the first occurrence, in all texts and from every place on, exactly for the needles without U+FFFD, U+FFFE and U+FFFF |
| `TextFunctions.CharIndexRightWithinIff` | src/extension-functions.cc:1377-1409 | what `charindex` answers is the first occurrence, in all texts without U+FFFE and U+FFFF and from every place on, exactly for the needles without those two |
| `TextFunctions.Reverse` | src/extension-functions.cc:1690-1727 | the characters in reverse order, still well-formed and as long in bytes |
| `TextFunctions.ReverseTwice` | src/extension-functions.cc:1690-1727 | reversing a text twice gives back its bytes |
| `TextFunctions.LeftThenRight` | src/extension-functions.cc:1416-1508 | the first n characters followed by the last len - n are the text |
| `Outline.DiscoverOutline` | src/document.sections.cc:288-365 | the objects form the tree of nearest enclosing headings, owned, named and parent links agreeing and each node where its section starts; the intervals written are exactly those of the headings that open a section, one each |
| `Outline.PreorderIsDocumentOrder` | src/document.sections.cc:288-365 | the finished tree in preorder is the list of headings in document order |
| `Outline.NestedOrDisjoint` | src/document.sections.cc:312-365 | two section intervals are nested as their headings are in the tree, and disjoint otherwise, save that sections which both start the text may share its first position |
| `Walker.WalkTokens` | src/document.sections.cc:460-747 | after any tokens, so at every token boundary, and mismatched or not: the open containers are those the tokens leave open, depth is their number, interval states and nodes are one more, and parent and ownership links agree |
| `Walker.Walk` | src/document.sections.cc:455-763 | at the end the root has no parent and every owned child's parent is its owner, mismatched and missing closers included; of the nodes open at the end, one per open container and one around them, the root is the innermost or its only child, and the others are owned by no node |
| `Brackets.PartnersMatch` | src/data_scanner.cc:314-347 | the closer found from an opener fits that very opener, and both leave open what was open before |
| `Brackets.Scanner.ThereAndBack` | src/data_scanner.cc:349-411 | searching forward and, before the deferred pop, back gives the same range |
| `Brackets.IsCreditCard` | src/data_scanner.cc:259-292 | true exactly if the checksum without spaces is a multiple of ten |
| `Brackets.DetectsSwap` | src/data_scanner.cc:259-292 | every exchange of two different neighbouring digits is noticed, except exactly that of 0 and 9 |
| `CurlLooper.Looper.LoopBody` | src/curl_looper.cc:244-256 | after a turn every live request is active or waits for a later time, none that was to be closed is live, and libcurl has exactly the active handles |
| `CurlLooper.ExactlyOnePlace` | src/curl_looper.hh:152-158 | every live request is in exactly one of new, active and poll queue |
| `CurlLooper.ClosedStaysAway` | src/curl_looper.cc:304-335 | a closed request is neither new nor active nor in the poll queue |
| `LongPoll.RunKeeps` | src/ext.longpoll.cc:77-200 | in every state of every interleaving of calls, notifications and timeouts listed calls are those parked or on their way back, and a parked one has seen the latest state |
| `LongPoll.NoChangeLost` | src/ext.longpoll.cc:104-110 | while a call is parked and not signalled the state has never changed since it came |
| `LongPoll.AnswerIsLatest` | src/ext.longpoll.cc:104-116 | an answer is the latest state at the moment the lock is released |
| `Csv.FileReads` | src/cmds.io.cc:490-538 | any file of records with one or more fields each reads back |
| `Csv.WriteAndRead` | src/cmds.io.cc:412-538 | every write that is not refused reads back as the header and the rows it was to write, all of them without dry run and interrupts |
| `Elements.PushBack` | src/data_parser.cc:1420-1432 | pushing behind the last element; its precondition is the source's ordering assertion, an element whose capture is up to date is appended as it is |
| `Elements.AssignElements` | src/data_parser.cc:1218-1237 | the new children are owned, the capture covers them, the token stays |
| `Elements.MovedFrom` | src/data_parser.cc:1188-1198 | a copied element stays in place with token and capture, without its children |
| `Elements.LeavesOfAppend` | src/data_parser.hh:292-305 | splicing lists splices their tokens in the same order |
| `FormatStates.RunCounts` | src/data_parser.cc:1362-1379 | the histogram of a level is the multiset of exactly that level's tokens |
| `FormatStates.PrefixAlive` | src/data_parser.cc:1362-1379 | while a level may still be a prefix its comma and semicolon states are never in error |
| `FormatStates.ErrorsAbsorb` | src/data_parser.cc:976-1170 | once a prefix is over errors are final |
| `FormatStates.FinalizeDecides` | src/data_parser.cc:1381-1418 | which format a level gets, and that it is one the regrouping can use |
| `GroupFolding.KeptAreTokens` | src/data_parser.cc:573-665 | nothing is in the tree that the scanner did not return |
| `GroupFolding.StepPlaced` | src/data_parser.cc:587-664 | every token leaves the open levels one behind the other, each child inside its parent |
| `GroupFolding.TrailingLevels` | src/data_parser.cc:667-680 | the empty levels on top of the stack are the opening brackets the message ends with |
| `GroupFolding.EndsInOpener` | src/data_parser.cc:588-596 | a message has opening brackets at its end exactly if its last token opens one |
| `GroupFolding.AlignedIff` | src/data_parser.cc:667-680 | every open level is closed with its own tokens exactly if no level on top is empty |
| `GroupFolding.CloseAllIs` | src/data_parser.cc:667-683 | closing open levels innermost first is finishing the recursive descent |
| `GroupFolding.FormatOfWrongLevel` | src/data_parser.cc:667-683 | in a message with a plain equals sign that ends in an opening bracket the level inside the bracket, whose state is used, has a colon for separator instead |
| `GroupFolding.UnfinishedMessage` | src/data_parser.cc:667-683 | in `a = b (`, with its white space, the level inside the bracket, whose state is used for the root, has another separator than the root of the right tree |
| `MessageParser.DataParser.CloseGroup` | src/data_parser.cc:622-641 | a finished level becomes a group of the one around it, an empty one a leafless group where its closer stands |
| `MessageParser.DataParser.AddToLevel` | src/data_parser.cc:598-614 | leaves, empty containers and units join the innermost level; a unit takes its number into a measurement |
| `MessageParser.DataParser.CloseTop` | src/data_parser.cc:620-641 | tokens, lists and states stay in step over a closing bracket |
| `MessageParser.DataParser.AcceptToken` | src/data_parser.cc:587-664 | one turn of the token loop refines one step of the stack machine |
| `MessageParser.DataParser.ReadTokens` | src/data_parser.cc:568-665 | at the end of the input each group's format state has run over exactly its own level's tokens |
| `MessageParser.DataParser.CloseUnclosed` | src/data_parser.cc:667-683 | unclosed levels are closed in text order without losing a token; the tree is that of the misaligned levels, and one format state is left over for each empty level |
| `KeyScan.Strip` | src/data_parser.hh:53-63 | white space goes from both ends |
| `KeyScan.DropToValue` | src/data_parser.cc:234-238 | dropping components up to a value changes none of the pairs to come |
| `KeyScan.MixLast` | src/data_parser.cc:204-239 | a value that is last, and a word before it, go to the front of the queue of mixed pairs |
| `KeyScan.SplitAt` | src/data_parser.cc:114-141 | a delimiter splits the components into value and key |
| `KeyScan.CutAfter` | src/data_parser.cc:189-203 | what follows a mixing value is kept aside once if it ends in a key, and dropped otherwise |
| `KeyScan.FinishScan` | src/data_parser.cc:249-266 | queued pairs replace a key that still waits, and the key kept aside comes back |
| `KeyScan.ScanTurn` | src/data_parser.cc:113-246 | every turn removes a component or moves the cursor down, although the cursor is reset to the end |
| `KeyScan.ScanOver` | src/data_parser.cc:249-266 | what the loop has collected when it ends is the closed form |
| `Regrouping.Absorb` | src/data_parser.cc:69-326 | a turn of the walk leaves the element in place, with or without its children |
| `PairUp.EndValue` | src/data_parser.cc:686-899 | `end_of_value` computes its function, and the ordering assertion holds at each of its pushes |
| `PairUp.TakeAll` | src/data_parser.cc:852-868 | all components become the value; of two, a leading name becomes its key |
| `PairUp.SplitComponentsAt` | src/data_parser.cc:267-288 | at a separator all components but the last are value, unless a terminator is awaited |
| `PairUp.SeparatorStep` | src/data_parser.cc:100-318 | the separator branch computes its function, ordering assertion included |
| `PairUp.MakePair` | src/data_parser.cc:395-430 | a key takes the value after it, or an empty one right behind it and its separator, and the pair lies behind what was built before |
| `PairUp.FlushFree` | src/data_parser.cc:382-393 | values without a key become pairs with an empty key, in order |
| `PairUp.RowsTurn` | src/data_parser.cc:345-431 | each turn over the element stack shortens it and keeps what will come out of it |
| `PairUp.MakeRows` | src/data_parser.cc:345-431 | the whole loop pairs each key with the value after it, or makes a free row if no key is followed by anything |
| `PairUp.MakeColumns` | src/data_parser.cc:462-521 | a free row becomes columns with empty keys |
| `PairUp.SpreadSingle` | src/data_parser.cc:433-456 | a single pair whose value has several parts is spread out into a row |
| `PairUp.ConcludeRows` | src/data_parser.cc:433-563 | the end of `pairup`: row, columns or pairs, at most a thousand |
| `PairUp.WalkTurn` | src/data_parser.cc:69-326 | one turn of the walk over a level computes its function, ordering assertion included |
| `PairUp.FinishLevel` | src/data_parser.cc:330-563 | what follows the walk computes its function |
| `RegroupOrder.EndOfValueSpaced` | src/data_parser.cc:686-899 | the element stack stays in text order, and a key without value leaves room for an empty one |
| `RegroupOrder.MixedPairsSpaced` | src/data_parser.cc:180-240 | mixed pairs are pushed complete and in order |
| `RegroupOrder.PairsFromSpaced` | src/data_parser.cc:345-431 | the pairs made of the stack read left to right inside the level and own exactly two children each |
| `MessageParser.DataParser.PairupGroup` | src/data_parser.cc:70-78 | a group owns its pairs afterwards, or what is left of its own elements |
| `MessageParser.DataParser.WalkLevel` | src/data_parser.cc:69-326 | the walk over a level, its groups regrouped first, computes its function |
| `ColumnNames.PairsOfList` | src/data_parser.cc:52-563 | a key with a value, a comma and another value regroup into two pairs, the second without a key |
| `JsonWriter.Writer.ConstantToJson` | src/elem_to_json.cc:76-85 | true, false or null, by the first letters of the constant |
| `JsonWriter.Writer.ElementToJson` | src/elem_to_json.cc:36-90 | the recursion ends, reads no missing child and writes one value |
| `JsonWriter.Writer.MapElementsToJson2` | src/elem_to_json.cc:92-124 | one member per pair, unnamed ones numbered in order |
| `JsonWriter.Writer.ListElementsToJson` | src/elem_to_json.cc:126-144 | one item per element |
| `JsonWriter.Writer.NamesAreUnique` | src/elem_to_json.cc:151-177 | the loop finds out whether all are pairs and no key text comes twice |
| `JsonWriter.Writer.MapElementsToJson` | src/elem_to_json.cc:146-186 | a map if all elements are pairs with distinct key texts, an array otherwise |
| `JsonWriter.Writer.ElementsToJson` | src/elem_to_json.cc:188-229 | null, a value, a map of one or several members, or an array |
| `OrderStatistics.NodeInsert` | src/extension-functions.cc:2730-2751 | exactly one more occurrence of the value, and still a search tree |
| `OrderStatistics.TreeAscending` | src/extension-functions.cc:2730-2770 | read in order the values of the tree ascend strictly |
| `OrderStatistics.ModeCtx.Step` | src/extension-functions.cc:1793-1837 | NULL changes nothing; the first value decides between integers and reals; every later value is one more stored key |
| `OrderStatistics.ModeCtx.Iterate` | src/extension-functions.cc:2760-2770 | the recursive walk visits the values in ascending order, each once with its count |
| `OrderStatistics.IndexMeaning` | src/extension-functions.cc:1892-1898 | comparing a count with the position is comparing it with ceil(nq) - 1 or floor(nq) |
| `OrderStatistics.MedianTurn` | src/extension-functions.cc:1879-1912 | a visit takes the value exactly if it covers one of the two positions |
| `OrderStatistics.MedianWalk` | src/extension-functions.cc:1879-1912 | one walk adds up exactly the selected values, and stopping early loses none |
| `OrderStatistics.SelectedAtPositions` | src/extension-functions.cc:1879-1912 | the values a percentile selects are those at the two positions of the sorted sequence, once if they are equal |
| `OrderStatistics.SortedUnique` | src/extension-functions.cc:2730-2751 | a multiset has one sorted sequence, so the order of insertion cannot matter |
| `OrderStatistics.WideIntegerMedian` | src/extension-functions.cc:1901 | the median of the single integer 2^31 is answered with -2^31 |
| `OrderStatistics.WideIntegersCancel` | src/extension-functions.cc:1901 | the median of -2^31 - 1 and 2^31 is answered right, although neither fits |
| `OrderStatistics.ModeTurn` | src/extension-functions.cc:1843-1871 | after each visit: the largest count, how many values have it, and the value of the first of them |
| `OrderStatistics.WalkFindsMode` | src/extension-functions.cc:1843-1871 | one value is reported exactly if a single value is the most frequent, and then that one |
| `OrderStatistics.ModeRightIff` | src/extension-functions.cc:1851 | a mode is the value stored exactly if that fits in 32 bits |
| `Variance.DeviationFromMean` | src/extension-functions.cc:1781-1787 | moving the centre away from the mean adds n times the square of the distance |
| `Variance.StepTracks` | src/extension-functions.cc:1781-1787 | the recurrence keeps the mean and the sum of squared deviations from it |
| `Variance.StdevCtx.Step` | src/extension-functions.cc:1770-1788 | a value keeps mean and sum of squared deviations those of all values seen, and NULL changes nothing |
| `Variance.StdevCtx.Finalize` | src/extension-functions.cc:2020-2030 | the sample variance of what was seen, 0 for fewer than two values |
| `Utf8.ReadsPayload` | src/extension-functions.cc:522-544 | a well-formed sequence reads as its payload if that is the shortest form of no surrogate, and as U+FFFD otherwise |
| `Utf8.EncodedPayload` | src/extension-functions.cc:227-507 | what RFC 3629, section 3, prescribes for a character has the length the table gives and the character as payload |
| `Utf8.BeyondUnicode` | src/extension-functions.cc:522-544 | F4 90 80 80, the first complete sequence past U+10FFFF, is read as 0x110000 |
| `Utf8.NextChar` | src/extension-functions.cc:584-591 | on any bytes, the next one that continues no character |
| `Utf8.ReadAt` | src/extension-functions.cc:522-552 | reading at a boundary gives the character there, and the terminator only at the end |
| `TextFunctions.CharLen` | src/extension-functions.cc:566-582 | the number of characters |
| `TextFunctions.PadLeft` | src/extension-functions.cc:1083-1131 | an error for a negative length; else max(len, n) characters, the spaces in front |
| `TextFunctions.PadRight` | src/extension-functions.cc:1139-1188 | an error for a negative length; else max(len, n) characters, the spaces behind |
| `TextFunctions.PadCenter` | src/extension-functions.cc:1197-1251 | an error for a negative length; else max(len, n) characters, half the spaces, rounded down, in front and the others behind |
| `TextFunctions.Left` | src/extension-functions.cc:1416-1453 | the first n characters, none for a negative n, all if there are fewer |
| `TextFunctions.Right` | src/extension-functions.cc:1460-1508 | the last n characters |
| `TextFunctions.ReversedTwice` | src/extension-functions.cc:1690-1727 | reversing a list of characters twice gives it back |
| `TextFunctions.SkipChars` | src/extension-functions.cc:1333-1335 | the start of the search, or the end of a shorter text |
| `TextFunctions.Substr` | src/extension-functions.cc:1320-1367 | the first place from s on at which the needle is read, -1 if there is none or the needle is empty |
| `TextFunctions.ReadsIsOccursIff` | src/extension-functions.cc:1342-1357 | being read is occurring, in all texts, exactly for the needles without U+FFFD, U+FFFE and U+FFFF |
| `TextFunctions.ReadsIsOccursWithinIff` | src/extension-functions.cc:1342-1357 | being read is occurring, in all texts without U+FFFE and U+FFFF, exactly for the needles without those two |
| `TextFunctions.ReplacementMatches` | src/extension-functions.cc:1342-1357 | U+FFFD is found in a text that does not contain it |
| `Outline.LineBeginIs` | src/base/intern_string.hh:371-402 | the boundary has a line break before it, or is the start, and none after it |
| `Outline.FindLeftBoundary` | src/base/intern_string.hh:371-402 | the search to the left finds that boundary |
| `Outline.OpenAtIs` | src/document.sections.cc:303-349 | the stack holds exactly the headings that no later one of at most their level has closed, outermost first |
| `Outline.ParentIs` | src/document.sections.cc:312-347 | a heading's parent is the nearest earlier still-open heading of smaller level, or the root |
| `Outline.ParentIsTop` | src/document.sections.cc:336-338 | the parent of a heading is what is on top of the stack after the pops |
| `Outline.BelowIsAncestry` | src/document.sections.cc:312-347 | being inside an open section is being reached from the parent upwards |
| `Outline.SectionEmptyIff` | src/document.sections.cc:315-320 | an interval ends before it starts exactly if the heading that closes it is on its line, past the first |
| `Outline.EmptySection` | src/document.sections.cc:315-320 | two headings on the second line: the section of the first is empty |
| `Outline.CloseSection` | src/document.sections.cc:314-330 | a closing section's interval is written and its node handed to its parent as last child, also under its name |
| `Outline.CloseSections` | src/document.sections.cc:310-334 | a heading closes exactly the open sections of no smaller level |
| `Outline.OpenSectionAt` | src/document.sections.cc:335-347 | a heading opens its section below the innermost section left |
| `Outline.ReadHeader` | src/document.sections.cc:303-349 | stack, nodes and intervals stay in step over any heading |
| `Outline.CloseRemaining` | src/document.sections.cc:351-365 | at the end every section is closed once |
| `Walker.ClosesInnermost` | src/document.sections.cc:629-682 | a bracket that closes something closes the innermost container of its kind and what is in it |
| `Walker.MisfitClosesAll` | src/document.sections.cc:514-544 | a closing tag that fits nothing closes everything |
| `Walker.StructureWalker.FlushValues` | src/document.sections.cc:823-870 | the interval at hand is started and named by the last key before a separator |
| `Walker.StructureWalker.AppendChildNode` | src/document.sections.cc:872-910 | the interval state is reset, and the hierarchy keeps parent and ownership links in agreement |
| `Walker.StructureWalker.AppendNode` | src/document.sections.cc:882-906 | the staged node goes under the innermost open one, unless it starts on the same line below the top level |
| `Walker.StructureWalker.CloseTag` | src/document.sections.cc:514-544 | the closing loop ends, and the four stacks are in step again whether or not the tag fitted |
| `Walker.StructureWalker.CloseBracket` | src/document.sections.cc:629-683 | the closing loop of a bracket ends, and the four stacks are in step again whether or not it fitted |
| `Walker.StructureWalker.Flatten` | src/document.sections.cc:653-677 | a container on one line loses its children and the intervals written inside it |
| `Walker.StructureWalker.DropOpenChildren` | src/document.sections.cc:813-821 | all containers are closed together |
| `Walker.StructureWalker.Step` | src/document.sections.cc:460-747 | at every token boundary depth = containers and interval states = nodes = depth + 1, and the containers are those the tokens so far leave open |
| `Walker.StructureWalker.Finish` | src/document.sections.cc:748-763 | the staged node joins the children of the innermost open node, which is the root, or its only child is if no child has a name; the root has no parent, every owned child's parent is its owner, and the outer open nodes are owned by no node |
| `Brackets.PartnerHere` | src/data_scanner.cc:352-381 | the partner is the first closer that brings the stack back to the opener's height |
| `Brackets.Scanner.Tokenize` | src/data_scanner.cc:314-347 | the stack is that of the tokens read, with a matched bracket left on it until the next token |
| `Brackets.Scanner.FindForward` | src/data_scanner.cc:349-381 | the range up to the partner, mismatched closers ignored, or none at the end of the input |
| `Brackets.Scanner.FindBackward` | src/data_scanner.cc:382-405 | the range from the innermost open bracket of the closer's kind |
| `Brackets.PassesAdd` | src/data_scanner.cc:274-286 | the two passes add up to the checksum of ISO/IEC 7812-1 |
| `Brackets.DetectsOneDigit` | src/data_scanner.cc:259-292 | every change of a single digit is noticed |
| `CurlLooper.Looper.AddRequest` | src/curl_looper.hh:128-134 | a new request is live and waits to be started |
| `CurlLooper.Looper.CloseRequest` | src/curl_looper.hh:136-139 | the name of the request is noted as one to be closed |
| `CurlLooper.Looper.Requeue` | src/curl_looper.cc:276-291 | exactly the requests that are due become active, and only later deadlines are left |
| `CurlLooper.Looper.CloseNamed` | src/curl_looper.cc:304-335 | the request of that name, if there is one, is closed and withdrawn from wherever it is |
| `CurlLooper.Looper.CheckNew` | src/curl_looper.cc:293-336 | afterwards nothing is new or to be closed, and exactly the requests not named are live |
| `CurlLooper.Looper.Enqueue` | src/curl_looper.cc:374-375 | one more entry in the queue, which stays sorted |
| `CurlLooper.Looper.FinishOne` | src/curl_looper.cc:344-378 | a finished request is deleted or waits for its time; other messages change nothing |
| `CurlLooper.Looper.CheckFinished` | src/curl_looper.cc:338-379 | nothing becomes active, and only active requests go |
| `CurlLooper.Looper.ProcessAll` | src/curl_looper.cc:398-410 | the invariant holds whatever libcurl reports |
| `LongPoll.NotifyKeeps` | src/ext.longpoll.cc:184-200 | a new state signals every parked call, unless it is what every listed call has seen, and then none; nobody leaves the list and nobody is answered |
| `LongPoll.StepKeeps` | src/ext.longpoll.cc:77-200 | every step keeps the invariant: listed calls are those parked or on their way back, and a parked one has seen the latest state |
| `LongPoll.ChangeSignals` | src/ext.longpoll.cc:184-200 | the step that changes the state is the one that signals it |
| `LongPoll.Pollers.Begin` | src/ext.longpoll.cc:77-108 | the section before the wait is the step that lists the call: it parks exactly if views and tasks are the same |
| `LongPoll.Pollers.End` | src/ext.longpoll.cc:108-116 | the section after the wait takes the call off the list and answers it |
| `LongPoll.Pollers.Notify` | src/ext.longpoll.cc:184-200 | the loop over the pollers is the step that takes in a new state |
| `LongPoll.Pollers.NotifyEverybody` | src/ext.longpoll.cc:164-171 | the plain notification is the step that signals every parked call |
| `Csv.FieldReads` | src/cmds.io.cc:72-101 | any field reads back, whatever separator follows it |
| `Csv.RecordReads` | src/cmds.io.cc:511-527 | any record of one or more fields reads back |
| `Csv.RoundTripIff` | src/cmds.io.cc:412-419 | why a result without columns has to be refused: header and rows come back from the file exactly if there is a column |
| `Csv.Writer.WriteString` | src/cmds.io.cc:90-101 | quoted if needed, as it is otherwise |
| `Csv.Writer.WriteRecord` | src/cmds.io.cc:495-502 | the loop with its flag writes the fields with commas between them |
| `Csv.Writer.WriteRows` | src/cmds.io.cc:490-538 | the header and the row loop with its two ways out |
| `Csv.Writer.WriteCsv` | src/cmds.io.cc:412-538 | a result without columns is refused and nothing written; any other becomes the header and as many rows as dry run and interrupts let through |
| `Csv.DryRunRows` | src/cmds.io.cc:505-508 | a dry run writes eleven rows, or all if there are fewer |

## Left out

- the schema hash and message format string of `pairup`, trace output and the names of lists: no result depends on them
- `tokenize_int`, the generated scanner: its results are parameters, as described above
- aliasing and iterators of `std::list`: lists are values, what a splice moves is stated
- floating-point rounding in the aggregates, and counts of 2^31 or more
- `OrderStatistics.WideIntegerMedian`: shows one integer outside 32 bits; `PercentileRightIff` gives the exact condition for all
- `stdev`: the square root of the variance proved here
- NULL arguments of the string functions, which are answered with NULL before anything is computed
- `TextFunctions.Right`: negative lengths are not modelled, because the code then steps past the terminator and what stands there is no part of the text
- malformed UTF-8 in the string functions (reading and stepping are stated for it where they are defined)
- `replicate`, `proper`, `strfilter`, `replace` and the trigonometric wrappers: they would only add easy members
- shifting outline intervals by origin offsets, and taking headings in quoted text out of the list
- attributes, indents, words and type intervals collected by the structure walker
- `Walker.Walk`: the shape of the finished hierarchy below its root is not compared with a second definition; its links, the stacks and which open node is kept are stated
- the order of requests due at the same time, which depends on addresses
- libcurl, condition variables and the list of background work: events and parameters; `AnswerIsLatest` speaks of views, not of that list
- `GroupFolding.FormatOfWrongLevel`: a family of messages and their root; for every message and level `DiscoverFormat` with `MisalignedIs` names the level whose tokens decide the format
