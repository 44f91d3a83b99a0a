# Verified models of the bidder's data paths

A Dafny model of the parts of this repository that carry the hardest invariants, with proofs. The
code is modelled in the form it has: objects whose fields change are classes, loops are loops with
invariants, tables and expressions are functions. Each method is proved against a function or a
predicate, and the lemmas beside it say what that function guarantees.

| part | modules |
|---|---|
| Resumable JSON parser, printer, subtree deletion, escapes (`common/json.c`) | `JsonTree`, `JsonGrammar`, `JsonLexer`, `JsonMachine`, `JsonFeed`, `JsonText`, `JsonRoundTrip`, `JsonTokens`, `JsonAccept`, `JsonTexts`, `JsonCompact`, `JsonHeap`, `JsonShape`, `JsonParser`, `RcString`, `JsonWalk`, `JsonPrinter`, `JsonFree`, `JsonFreeHeap`, `JsonDocument`, `JsonEscape`, `JsonUnescape`, `JsonFields` |
| Geohash text, cells, neighbours, fixed point (`common/geohash.cpp`) | `GeoBits`, `GeoWords`, `GeoRead`, `GeoInterleave`, `GeoFixed`, `GeoHash`, `GeoCells`, `GeoNeighbors`, `GeoAdjacent` |
| Pacing counters, user caps, notice flags (`tracker/tracker.cpp`, `common/util.cpp`) | `PacingDay`, `Pacing`, `UserCaps`, `UserStore`, `Notices`, `NoticeDesk`, `RedisStore` |
| IP range table (`common/getlocation.cpp`) | `IpLookup` |
| URL and Base64 codecs, query strings (`common/url_endecode.cpp`, `common/base64.c`, `common/util.cpp`) | `UrlCodec`, `Base64`, `Query`, `Trace` |

`Wrappers` holds `Option`, `Units` the machine numbers and bytes, `Hex` hexadecimal digits. To verify the
project, run `dafny verify dfyconfig.toml`.

## How the pieces fit

**JSON.** `JsonLexer` is the 25-state lexer, proved to accept exactly the string and number texts of
RFC 8259 (sections 6 and 7). `JsonMachine` is the parser of one token, a pushdown machine whose stack
is the open nodes; `JsonFeed` runs it over fragments. `JsonText` is a recursive printer, and
`JsonRoundTrip` proves that parsing undoes it. The heap side refines these values: `JsonParser`
moves real cursors and links (`JsonHeap`, `JsonShape`), `JsonPrinter` is the goto-driven printer
walking the same links, and `JsonFreeHeap` frees a subtree in post-order (`JsonFree`). `JsonGrammar`
is the grammar of RFC 8259 as a relation between texts and trees, defined without the parser;
`JsonTokens`, `JsonAccept` and `JsonTexts` prove which texts the parser accepts. Every text of the grammar
whose value is an object is accepted as what it denotes (`JsonTexts.EveryJsonObject`), and `JsonTexts.AcceptedIff`
says exactly what is accepted beside them: an array may have a comma after its last element, and a token may be
left without its end behind the root. `JsonCompact` proves that what is printed is a text of RFC 8259, and the shortest
one of its tree.

**Geohash.** Text and 16-bit words are two groupings of one bit stream, so regrouping is a statement
about `GeoWords.Concat`. A cell is a number of leading bits, and stepping to a neighbour is one more
or less on a circle of that many bits. The last character of a hash and the last neighbour's text
read one word past an array; that word is a parameter named `beyond`, and the results that matter do
not depend on it.

**Counters.** Redis is a pair of maps whose values are JSON text. `PacingDay`, `UserCaps` and `Notices`
give the rule for one event as a function on plain values and prove what every run keeps; `Pacing`,
`UserStore` and `NoticeDesk` are the imperative code on the stored texts and are proved to follow the rule.

## Where code and comments differ

- `json_parse_fragment` refuses a first fragment of only white space (`common/json.c:2155-2173`), although
  white space may follow in later fragments: `JsonFeed.CuttingIsHarmlessIff` says exactly when cutting a text is harmless.
- The comment of the last parser state says that only white space is accepted behind the document
  (`common/json.c:2744`), but there a token without its end is waiting for more, as white space is: `{}1` is a
  document (`JsonTexts.UnfinishedSample`). `JsonTexts.DenotesIff` says exactly when the text is the document alone: when
  `lex_state` is 0 in the end.
- An array may end in a comma (`common/json.c:2561-2735`): `{"a":[1,]}` is a document (`JsonTexts.LastCommaSample`).
- Unescaping tests for a backslash and a `u` behind a high surrogate by comparing a negation with a character
  (`common/json.c:1306-1313`). The tests never fail, so six characters are skipped whatever they are. `\ud800abcde\\q`,
  which the lexer accepts, reaches `assert (0)`, and a text that ends in `\ud800` is read past its end
  (`JsonUnescape.UnpairedHighFails`); `JsonUnescape.FollowedIsHandled` says when neither happens.
- The comment before the hourly target says that it rolls over from the previous period (`tracker/tracker.cpp:793`);
  the search stops before hour 0 (`tracker/tracker.cpp:827`), so what hour 0 leaves over is never rolled:
  `PacingDay.HourZeroIff` says exactly when the target and the deliveries still reach all plans, and
  `PacingDay.HourZeroIsNotRolled` is a day on which they do not.
- A notice that is read before an earlier one is written is checked against an old flag (`tracker/tracker.cpp:2112-2220`):
  two wins are both counted (`Notices.LateWritesCountTwice`). `Notices.CountedOnceIff` says exactly when a key is counted once.
- A user's first event is counted before any cap is read (`tracker/tracker.cpp:1024-1028`): a cap of 0 is not kept
  (`UserCaps.ZeroCapIsNotKept`). `UserCaps.CapIsKeptIff` says exactly when a cap is kept.
- The list of trace fields in the comment (`common/util.cpp:3275`) lacks `ip`, which the code writes.
- The decoder's check for invalid characters compares a table entry of type `char` with 255 (`common/base64.c:102-106`),
  so where `char` is signed it finds none and they are decoded: `Base64.Base64Decode` says so for both kinds of `char`.
- A table of fewer than 256 ranges makes the index loop's unsigned bound wrap and read past the table
  (`common/getlocation.cpp:82`): `IpLookup.BuildIndex`.
- An IP address above the last range makes the first search read past the index (`common/getlocation.cpp:128-152`);
  `IpLookup.GetRegionCode` proves that this happens for those addresses and no others.

## Model

| member | source | states |
|---|---|---|
| JsonLexer.StringAcceptance | common/json.c:1482-1680 | the string states accept exactly the texts between quotes of RFC 8259, section 7 |
| JsonLexer.NumberAcceptance | common/json.c:1825-2135 | the number states can end exactly after a number of RFC 8259, section 6 |
| JsonGrammar.ClassesAre | common/json.c:1398-1460 | the characters taken as white space, digits, hex digits and escapes |
| JsonLexer.LexCharOk | common/json.c:1379-2139 | every character keeps what a lexer state says of the text collected so far, and the text of an emitted token is grammatical |
| JsonLexer.LinesAre | common/json.c:1396-1412 | a line break is counted between tokens and nowhere else |
| JsonMachine.OnTokenOk | common/json.c:2175-2730 | in every parser state every token keeps the cursor type that the state asserts, the stack nesting and the validity of finished children; the only errors are malformed document and illegal character |
| JsonMachine.CodesAre | common/json.c:2333-2730 | an illegal character is reported exactly where a label after a comma, a value or an element is awaited; everything else that does not fit is a malformed document |
| JsonMachine.CloseCases | common/json.c:2226-2272 | closing a container goes back into an array, or through a label into its object, and never to anything else |
| JsonFeed.StepByToken | common/json.c:2142-2768 | one character of input does what the lexer token it completes does, with the closer of a number read twice |
| JsonFeed.TokenByToken | common/json.c:1379-2139 | feeding a text character by character is taking lexer tokens off it one by one, which makes progress |
| JsonFeed.Fragment | common/json.c:2142-2775 | every call on every input ends in a resumable code or in one of the two errors of a bad document: bad tree structure and unknown problem never come out |
| JsonFeed.FeedSplit | common/json.c:2142-2768 | feeding a text is feeding its first part and then the rest, unless the first part is refused |
| JsonFeed.SessionPastStart | common/json.c:2142-2775 | past state 0 any cut of the rest into fragments gives the same tree, parser state, lexer state and code |
| JsonFeed.FragmentIndependence | common/json.c:2142-2775 | for every text and every cut whose first piece of text is not all white space, the fragments in turn end as one call on the whole text does: same code, parser state and tree, and same lexer unless it is refused before its first brace |
| JsonFeed.LexerLeftBehind | common/json.c:2155-2173 | two pieces that are refused as their whole is, the lexer being left in another state |
| JsonFeed.BlankFirstFragment | common/json.c:2155-2173 | a first piece of only white space is refused as malformed |
| JsonFeed.CuttingIsHarmlessIff | common/json.c:2142-2775 | for every text and every cut, the outcome is that of the whole text if and only if the first non-empty piece is not all white space or the text is refused anyway because no brace comes first; for a text that is not refused the whole machine is the same if and only if the first non-empty piece is not all white space |
| JsonFeed.LeadingBlankLineSample | common/json.c:2155-2173 | a concrete text whose cut form is refused and whose whole form is not |
| JsonText.ValidPrints | common/json.c:573-799 | every grammatical document is printed, to a non-empty text |
| JsonText.FeedQuoted | common/json.c:1482-1541 | a quoted string text is read as one string token with that text |
| JsonText.FeedNumber | common/json.c:1825-2135 | a number text before a closer, comma or blank is read as one number token, and the character after it is then read as itself |
| JsonRoundTrip.ValueBack | common/json.c:573-799 | reading what was printed for a value leaves the machine as if the tree had been inserted at the cursor |
| JsonRoundTrip.PrintThenParse | common/json.c:573-799 | for every grammatical document, parsing the printed text returns success and the same tree |
| JsonRoundTrip.PrintThenParseIff | common/json.c:573-799 | a printed tree parses back to itself if and only if it is a grammatical document |
| JsonRoundTrip.ParseThenPrint | common/json.c:2779-2803 | whatever parses is grammatical, and printing it gives a text with the same parse |
| JsonRoundTrip.PrintIsInjective | common/json.c:573-799 | two grammatical documents with the same text are equal |
| JsonCompact.PrintIsJson | common/json.c:573-799 | what is printed for a grammatical document is a text of RFC 8259 that denotes it |
| JsonCompact.PrintIsShortest | common/json.c:573-799 | no text that denotes the document is shorter than the printed one |
| JsonGrammar.ValueIsValid | common/json.c:2142-2768 | only trees that the grammar of sections 2 to 7 of RFC 8259 describes are denoted by a text |
| JsonGrammar.StrictIsLoose | common/json.c:2561-2735 | what a text of RFC 8259 denotes, it also denotes where a last comma is allowed |
| JsonTokens.FirstToken | common/json.c:1379-2139 | one call of the lexer finds white space and then the first token with exactly its text, or waits for more exactly when the text ends or the token lacks its end |
| JsonAccept.ValueRead | common/json.c:2285-2663 | a text that the grammar gives as a value, with any white space in it, leaves the machine as if the tree had been inserted |
| JsonAccept.ValueAt | common/json.c:2285-2663 | if a run from an awaited value ends well, the text starts with a value of the grammar, and the run goes on behind it |
| JsonAccept.LineFree | common/json.c:1396-1402 | the line number has no part in what is accepted |
| JsonTexts.TrailerIff | common/json.c:2744-2762 | behind the root a text is taken exactly when it is white space, or white space and a token without its end |
| JsonTexts.AcceptedIff | common/json.c:2779-2803 | a whole text is parsed into a tree if and only if the grammar gives the text that tree, with an optional comma after the last element of an array and, behind the root, an optional token without its end |
| JsonTexts.DenotesIff | common/json.c:2779-2803 | the grammar with the optional comma gives a text a tree if and only if the text is parsed into it and the lexer ends between tokens |
| JsonTexts.EveryJsonObject | common/json.c:2779-2803 | every text of RFC 8259 whose value is an object is parsed into what it denotes |
| JsonTexts.DenotesOne | common/json.c:2779-2803 | no text denotes two trees |
| JsonTexts.UnfinishedIsIgnored | common/json.c:2744-2762 | a document with any token that lacks its end behind it is parsed as the document alone, although no tree has that text |
| JsonTexts.UnfinishedSample | common/json.c:2744-2762 | `{}1` is parsed as an empty object |
| JsonTexts.LastCommaIsTaken | common/json.c:2561-2735 | an array with a comma after its last number is parsed as without it, although the text is none of RFC 8259 |
| JsonTexts.LastCommaSample | common/json.c:2561-2735 | `{"a":[1,]}` is parsed as `{"a":[1]}` |
| JsonHeap.InsertChild | common/json.c:457-536 | inserting a child appends it to its parent and keeps every parent, sibling, first and last link of the document |
| JsonHeap.MayInsertIs | common/json.c:469-534 | a label is accepted under an object, a container or a childless node under a label or an array, and nothing under any other node |
| JsonHeap.InsertionIsWellLinked | common/json.c:522-536 | the pointer updates of an insertion keep all families of nodes well linked |
| JsonShape.PushOk | common/json.c:2175-2202 | a new open node under the cursor keeps the shape of the unfinished document |
| JsonShape.PutOk | common/json.c:2402-2425 | a finished leaf under the cursor keeps the shape of the unfinished document |
| JsonShape.PopOk | common/json.c:2226-2272 | finishing the cursor and moving to its parent keeps the shape |
| JsonShape.CursorFacts | common/json.c:2175-2768 | the cursor node has the type, text and children that the stack top says |
| JsonParser.ParsingInfo.constructor | common/json.c:1365-1376 | a new parser is in state 0 with no cursor |
| JsonParser.ParsingInfo.Ascend | common/json.c:2226-2272 | the parent link of the cursor leads to the open node above it |
| JsonParser.ParsingInfo.CloseCursor | common/json.c:2226-2272 | the tree checks made when a container ends never fail, and the cursor moves as the machine does |
| JsonParser.ParsingInfo.AddLabel | common/json.c:2204-2225 | a string in an object becomes a label and the cursor |
| JsonParser.ParsingInfo.AddValue | common/json.c:2393-2530 | a leaf value goes under the cursor, and a label that has its value is left |
| JsonParser.ParsingInfo.OnTokenRead | common/json.c:2175-2730 | one token does to the linked tree what it does to the machine, with the same code |
| JsonParser.ParsingInfo.ParseFragment | common/json.c:2142-2768 | parsing a fragment on the heap ends in the document, states and code that the machine gives; no tree check or assert fails |
| JsonDocument.ParseText | common/json.c:2779-2803 | parsing a whole text on the heap returns a well-linked document exactly when the text is accepted, and it is the parsed tree |
| JsonDocument.ReadWriteRead | common/json.c:573-799 | for every text, the code is that of parsing it; once accepted, what is printed is the printed form of its tree, and parsing that on the heap gives a well-linked document of the same tree |
| JsonDocument.ParseThenFree | common/json.c:427-454 | for every text, parsing and freeing the root frees every node of the document, each once, as many as its tree has nodes, and each after its children |
| RcString.Buffer.Resize | common/json.c:102-118 | growing the buffer keeps its contents |
| RcString.Buffer.CatChar | common/json.c:139-153 | one character is appended and the text stays NUL-terminated inside the buffer |
| RcString.Buffer.CatString | common/json.c:121-136 | a string is appended and the text stays NUL-terminated inside the buffer |
| JsonWalk.ShowByParts | common/json.c:573-799 | the text of a node is what is written on opening it, the texts of its children, and what is written on closing it |
| JsonWalk.NextSibling | common/json.c:741-786 | moving to the next sibling writes a comma and leaves the rest to be written unchanged |
| JsonWalk.LeaveKids | common/json.c:741-786 | moving back to the parent after the last child leaves the rest to be written unchanged |
| JsonPrinter.CursorLinks | common/json.c:573-799 | the links of the cursor agree with its place in the tree below the root |
| JsonPrinter.OpenStep | common/json.c:587-739 | opening a node goes down to its first child or on to closing it, writing what the recursive printer does, and the effort left gets smaller |
| JsonPrinter.CloseStep | common/json.c:741-786 | closing a node goes to the next sibling or up, writing what the recursive printer does, and the effort left gets smaller |
| JsonPrinter.TreeToString | common/json.c:573-799 | the goto-driven printer ends and writes exactly what the recursive printer gives; it fails exactly on a label without a value |
| JsonFree.PostIsClosed | common/json.c:362-454 | the nodes freed are the root and every child of a freed node |
| JsonFree.PostHasParent | common/json.c:362-454 | no other node is freed |
| JsonFree.PostIsDistinct | common/json.c:362-454 | each node below the root is listed once |
| JsonFree.PostIsChildrenFirst | common/json.c:427-454 | every node is listed after all of its children |
| JsonDocument.PostCounts | common/json.c:427-454 | as many nodes are listed as the tree has |
| JsonFree.LeafIsNext | common/json.c:427-454 | the childless node at the end of the way down by first children is the next one in post-order |
| JsonFreeHeap.RemovalIsWellLinked | common/json.c:370-415 | unlinking a childless node keeps every remaining family well linked |
| JsonFreeHeap.InternFree | common/json.c:362-423 | freeing a node without children takes it out of its family, whose first, last and sibling links stay right |
| JsonFreeHeap.FreeValue | common/json.c:427-454 | deleting a subtree ends, frees each of its nodes once and nothing else, and leaves the rest of the document well linked |
| JsonEscape.EscapeText | common/json.c:1139-1206 | the escaped text of every NUL-free byte string is written inside its buffer |
| JsonEscape.EscapedIs | common/json.c:1140-1206 | quote, backslash, slash and five control characters are escaped by a letter, the other control characters by four hex digits, and nothing else is |
| JsonEscape.Utf8RoundTrip | common/json.c:1259-1342 | the bytes written for a character number are its well-formed UTF-8 form, per section 3 of RFC 3629 |
| JsonEscape.Utf8Is | common/json.c:1259-1342 | a byte sequence is read as a character number if and only if it is the one written for it and the number is no surrogate |
| JsonEscape.ReadableIff | common/json.c:1209-1362 | the texts that mean a byte string, with UTF-8 for each character number, are exactly the string texts of bytes whose surrogates are paired |
| JsonUnescape.UnescapeUnicode | common/json.c:1246-1342 | one unicode escape is read and its bytes written, for any characters after the u: a lone low surrogate gives three bytes, a high one takes the six characters after it; it fails exactly where the text ends too early |
| JsonUnescape.UnescapeText | common/json.c:1209-1362 | for every text the loop ends at the NUL, having written what each part gives and stayed in its buffer, exactly when no part reaches the default case or the end of the text inside an escape |
| JsonUnescape.StrtolIs | common/json.c:1246-1262 | the number of an escape is read as strtol does: spaces, a sign, and hex digits up to the first other character |
| JsonUnescape.FollowedIsHandled | common/json.c:1209-1362 | an accepted string text is gone through without failing whenever each of its high surrogates is followed by another unicode escape |
| JsonUnescape.PairedIsMeaning | common/json.c:1209-1362 | for texts whose surrogates are paired, what is written is what the text means: the UTF-8 of each character number |
| JsonUnescape.UnescapeEscape | common/json.c:1139-1362 | unescaping undoes escaping for every byte string, and what escaping writes is a valid string text |
| JsonUnescape.UnpairedHighFails | common/json.c:1300-1325 | a text that the lexer accepts on which the default case is reached, and one that is read past its end |
| JsonUnescape.LoneLowIsWritten | common/json.c:1279-1297 | a lone low surrogate is written as three bytes that are not UTF-8 |
| JsonFields.FindFirstLabel | common/json.c:4205-4220 | the search returns the first label of that name |
| JsonFields.AddedLookup | common/json_util.cpp:42-53 | adding a label changes the lookup of its own name only, and only where it was missing |
| JsonFields.ReplacedLookup | tracker/tracker.cpp:777-787 | rewriting the value of a found label changes the lookup of that name only |
| JsonFields.AtoiOfDecimal | common/util.cpp:526-533 | reading a printed number gives the number back |
| GeoWords.RawByteIsFive | common/geohash.cpp:161-198 | each of the sixteen byte expressions ends in the next five bits of the words |
| GeoWords.WordsToLetters | common/geohash.cpp:154-204 | the text is the alphabet letters of the words' bits in groups of five; the size error is reported exactly when the buffer is too small |
| GeoWords.AlphabetRoundTrip | common/geohash.cpp:245-261 | the decoding table undoes the alphabet |
| GeoWords.AlphabetIs | common/geohash.cpp:155 | the characters written are the digits and the small letters but a, i, l and o, in their order |
| GeoWords.FromCharIs | common/geohash.cpp:245-262 | a character is read as a number exactly when it is what is written for that number or its capital |
| GeoRead.CaseDoesNotMatter | common/geohash.cpp:244-312 | a text is read as its small letters are |
| GeoRead.ReadIs | common/geohash.cpp:244-312 | exactly the texts of the alphabet, in either case, are read, each letter as its place in the alphabet |
| GeoRead.WholeIsSlice | common/geohash.cpp:281-285 | each of the five word expressions holds the next sixteen bits of sixteen letters |
| GeoRead.AddLetter | common/geohash.cpp:289-310 | the conditional assignments for one letter of the last block change exactly the words it reaches into |
| GeoRead.LettersToWords | common/geohash.cpp:244-312 | invalid characters, a NUL and a short buffer are reported as the code does; otherwise the words hold the letters' bits followed by zeros |
| GeoRead.ReadOfLetters | common/geohash.cpp:244-312 | reading the letters of a bit string gives its bits back |
| GeoInterleave.MapRow | common/geohash.cpp:22-66 | the spreading table holds at each place the bits of its index in the even places |
| GeoInterleave.InterleaveZips | common/geohash.cpp:21-68 | interleaving two bytes alternates their bits, the upper byte first |
| GeoInterleave.Deinterleave | common/geohash.cpp:70-76 | deinterleaving takes the even and the odd bits apart |
| GeoFixed.ShiftIsFloor | common/geohash.cpp:97-111 | shifting the mantissa is taking the floor of the magnitude in units of 2^-63 |
| GeoFixed.DoubleToCode | common/geohash.cpp:81-116 | the code is 2^63 plus the signed floor of the magnitude times 2^63; outside [-1, 1), for infinities and for NaN there is none |
| GeoFixed.CodeToDouble | common/geohash.cpp:121-152 | the double has the sign of the code and its distance from 2^63 cut down to 53 leading bits |
| GeoFixed.ThereAndBack | common/geohash.cpp:81-152 | a double taken to its code and back keeps its sign unless it becomes zero, moves only toward zero by less than 2^-63, and is exact from 2^-11 on |
| GeoFixed.FixedIsCode | common/geohash.cpp:81-116 | every code fits 64 bits |
| GeoHash.WordsAreInterleaved | common/geohash.cpp:217-219 | the eight words are the longitude and latitude bits in turn |
| GeoHash.Encode | common/geohash.cpp:209-236 | the buffer receives the 26 characters of the two codes, cut to its capacity, and a NUL |
| GeoHash.Decode | common/geohash.cpp:317-356 | the two doubles are those of the south-west corner of the cell the letters name |
| GeoHash.PrefixIsCorner | common/geohash.cpp:154-356 | the first L characters of a hash decode to a corner not above either coordinate and less than a cell width below it; a cell of 26 characters is one point |
| GeoHash.CornerHashesBack | common/geohash.cpp:154-356 | the corner of a cell of up to 25 characters has a hash that starts with them |
| GeoCells.PlusMinus | common/geohash.cpp:379-411 | the leading bits become one more or one less modulo two to their number, with full carry |
| GeoCells.SteppedTop | common/geohash.cpp:391-408 | a finished carry chain is one step of the leading bits |
| GeoCells.Compare | common/geohash.cpp:364-374 | the comparison is zero, or negative, exactly when the leading bits are equal, or smaller |
| GeoNeighbors.StepLatitudes | common/geohash.cpp:439-452 | of the three latitudes those past a pole repeat the one before, so that the loop skips them |
| GeoNeighbors.Neighbors | common/geohash.cpp:413-480 | the words written are those of the listed cells, in order, and their number is the count |
| GeoAdjacent.AroundIsAdjacent | common/geohash.cpp:413-480 | the listed cells are exactly the adjacent ones, longitude going around and latitude stopping at the poles, each once |
| GeoAdjacent.NeighbourCount | common/geohash.cpp:413-480 | eight cells inside the map, five in the first and last row |
| GeoAdjacent.AroundInOrder | common/geohash.cpp:413-480 | inside the map they are listed row by row, the own row, the one below and the one above, each from the own column to its west and its east |
| GeoAdjacent.HashNeighbors | common/geohash.cpp:482-532 | the strings written for a hash are the texts of the listed cells, each with its NUL; an invalid hash is reported |
| GeoAdjacent.StringsAreAdjacent | common/geohash.cpp:413-532 | the strings written for a hash are the hashes of exactly the adjacent cells, each once |
| GeoAdjacent.CellTextReadsBack | common/geohash.cpp:482-532 | the text of a cell reads back as that cell |
| PacingDay.CountsAreExact | tracker/tracker.cpp:711-944 | after every run each total, hour counter and slot counter is the number of its events |
| PacingDay.Conservation | tracker/tracker.cpp:711-944 | the daily total counts every event of a kind, and the hour counters and the slot counters both sum to those not paced by the day |
| PacingDay.MarkersAreEarned | tracker/tracker.cpp:875-891 | in every run a finish marker stands only where the hour count has reached a target other than zero |
| PacingDay.OneEvent | tracker/tracker.cpp:793-898 | a stored target or marker never changes, and a marker is stored, with the minute, exactly by the event of the paced kind that finds its target met |
| PacingDay.MarkersStay | tracker/tracker.cpp:875-891 | a marker keeps its value in every continuation of a run |
| PacingDay.RunKeepsTargets | tracker/tracker.cpp:821-858 | with one kind, one plan and time not going back, every stored target is what the rolling rule gives from the final counters |
| PacingDay.TargetsTelescope | tracker/tracker.cpp:821-858 | a target and the deliveries of earlier active hours make up the plans of the active hours plus what the limit of 1 added |
| PacingDay.TargetsStored | tracker/tracker.cpp:793-858 | a target is stored for exactly the hours that had an event, and it is other than zero exactly where the plan is |
| PacingDay.RollingTargets | tracker/tracker.cpp:793-858 | at every hour from 1 on that has an event and a plan, a target of at least 1 is stored, and target plus earlier deliveries is at least the plans, with equality if and only if the limit of 1 was never needed |
| PacingDay.HourZeroIff | tracker/tracker.cpp:793-858 | at every such hour, target, earlier deliveries and those of hour 0 reach the plans with that of hour 0 if and only if the deliveries of hour 0 and what the limit of 1 added reach the plan of hour 0 |
| PacingDay.FirstStores | tracker/tracker.cpp:711-752 | the first event of a day stores both totals, and the target of the day, or both sums, the target and the slot of its hour |
| PacingDay.DayTargetIs | tracker/tracker.cpp:798-819 | paced by the day, the first event stores the plan less the events that the hours so far counted, and later ones leave it |
| PacingDay.Int32Is | tracker/tracker.cpp:858 | a target is stored as the int of the same low 32 bits |
| PacingDay.SlotHolds | tracker/tracker.cpp:686-688 | the slot of an event is the one of its length that holds its minute |
| PacingDay.HourZeroIsNotRolled | tracker/tracker.cpp:826-858 | a day on which one of two planned deliveries of hour 0 is left over, and the target of hour 1 is its own plan alone |
| Pacing.NamesApart | tracker/tracker.cpp:680-701 | different counters have different labels |
| Pacing.NamesAre | tracker/tracker.cpp:640-701 | the labels of the counters as they are stored |
| Pacing.SlotNameIs | tracker/tracker.cpp:686-688 | the label of a slot is its hour, its first minute and its length in two digits each |
| Pacing.KeysNameIs | tracker/tracker.cpp:682 | the key is the prefix, the exchange and the day of the month, each in decimal with at least two digits |
| Pacing.HourlyTarget | tracker/tracker.cpp:821-858 | the backward search and the two limits give the rolled target |
| Pacing.DailyTarget | tracker/tracker.cpp:798-819 | the daily target is the plan less what all hours so far delivered |
| Pacing.SetTarget | tracker/tracker.cpp:793-858 | a missing target is stored, an existing one is left |
| Pacing.SumHour | tracker/tracker.cpp:860-899 | the hour counter and the finish marker are updated in the document as the rule says |
| Pacing.SumSlot | tracker/tracker.cpp:901-944 | the slot object is updated or added in the document as the rule says |
| Pacing.FirstRecord | tracker/tracker.cpp:711-752 | the first event of a day creates the record the rule gives |
| Pacing.GroupRestrictionCount | tracker/tracker.cpp:634-963 | the text stored for the group becomes that of the next counters, and no other entry changes; a stored text that is not a document is left alone |
| Pacing.RunsFit | tracker/tracker.cpp:777-921 | fewer than a billion events never overrun the ten bytes that a daily, an hourly or an interval counter is printed into |
| Pacing.FitsTenBytes | tracker/tracker.cpp:777-921 | the counters fit exactly while one more than each is printed with its NUL into ten bytes |
| UserCaps.OtherKeysUntouched | tracker/tracker.cpp:981-1104 | an event leaves the count of every other group or creative as it is |
| UserCaps.SamePeriod | common/util.cpp:418-438 | with an aligned start the unsigned time differences tell exactly whether the period has passed |
| UserCaps.CapIsKept | tracker/tracker.cpp:1000-1104 | in every run the stored count of a key is the number recorded in its period, and later periods have none |
| UserCaps.CapSafety | tracker/tracker.cpp:1000-1104 | in no aligned period are more impressions recorded for a key than a cap of at least 1 allows |
| UserCaps.RefusedIffFull | tracker/tracker.cpp:1067-1089 | an event is refused if and only if its period is already full |
| UserCaps.FindCapIs | tracker/tracker.cpp:1038-1048 | the search gives the cap of the first entry with the id of the creative, and none exactly where there is no such entry |
| UserCaps.FirstIsCounted | tracker/tracker.cpp:1024-1028 | the first event of a group is counted whatever caps there are, and the first of a key that has a cap |
| UserCaps.NoCapNoCount | tracker/tracker.cpp:1038-1043 | a creative without a cap of its own is not counted in a group that is there |
| UserCaps.PeriodOf | common/util.cpp:418-438 | a period begins at the last full hour, or at midnight |
| UserCaps.KeyOfEvent | tracker/tracker.cpp:1028-1062 | a cap of the group counts under the id of the group, any other under the id of the creative |
| UserCaps.SignedIs | tracker/tracker.cpp:605-606 | a count is written as the int of the same 32 bits |
| UserCaps.CapIsKeptIff | tracker/tracker.cpp:1000-1104 | in every run of one day a period records no more than its cap if and only if the cap is at least 1 or no event of the key falls into the period |
| UserCaps.ZeroCapIsNotKept | tracker/tracker.cpp:1024-1028 | with a cap of 0 the first event is recorded all the same |
| UserStore.WriteCreatives | tracker/tracker.cpp:595-612 | the list written for a group stands for exactly its map |
| UserStore.WriteUser | tracker/tracker.cpp:573-632 | whatever the ids, the text written for a user is the printed document of entries that stand for exactly the nested map |
| UserStore.RecordIsText | tracker/tracker.cpp:573-632 | the stored text, label by label |
| UserStore.UserTreeValid | tracker/tracker.cpp:573-620 | the document is grammatical if and only if every id is valid raw string text |
| UserStore.ReadUser | common/util.cpp:818-854 | reading the document of a list of entries gives the user id and the map they stand for, the first of a name staying |
| UserStore.WriteThenRead | tracker/tracker.cpp:573-632 | for every map with valid ids and 32-bit counts, the text written is the printed document of entries that stand for the map, it parses to that document, and reading it gives the same map |
| UserStore.ReadBackIff | tracker/tracker.cpp:573-632 | every record is printed, and comes back if and only if its ids are valid raw string text |
| UserStore.ReadRestriction | common/util.cpp:789-859 | what is read for a user is what Redis keeps; a text that is not a document reads as no counts |
| UserStore.CountAgain | tracker/tracker.cpp:1067-1089 | the branches for a known key give the new count of the rule |
| UserStore.CountEvent | tracker/tracker.cpp:1021-1105 | the branches between reading and writing give the next counts of the rule, or none |
| UserStore.UserRestrictionCount | tracker/tracker.cpp:1000-1120 | the stored text becomes that of the next counts, or stays when the event is refused, and no other entry changes |
| Notices.BitsApart | tracker/tracker.cpp:2119-2190 | setting one clear bit of a flag leaves the other bits |
| Notices.CountedOnceIff | tracker/tracker.cpp:2112-2220 | after every prefix of a run the flag of a key with its commands to come is the initial flag plus the bits of its valid notices, no kind twice, if and only if each valid notice of the key was read when no command of the key could still change what it reads: a win with no other win to come, another notice with no command to come |
| Notices.TimelyRunInOrder | tracker/tracker.cpp:2112-2220 | in every run whose valid notices of the key were read in time, the flag, the commands to come and the valid notices fit together |
| Notices.NoticesCountOnce | tracker/tracker.cpp:2112-2220 | in every such run each kind of notice is valid at most once, a click only after an impression, and the flag is the initial flag plus the accepted bits |
| Notices.ImpressionThenWin | tracker/tracker.cpp:2119-2190 | an impression and a win read before either is written are both counted rightly |
| Notices.LateWritesCountTwice | tracker/tracker.cpp:2119-2128 | two wins read before either is written are both valid, and the bit added twice reads as an impression |
| NoticeDesk.Desk.OnNotice | tracker/tracker.cpp:2112-2250 | the flag of the bid and the impression is looked up under the prefix and the two ids; a notice is accepted, repeated, not bid or undefined as the rule says, and exactly an accepted one queues a command |
| NoticeDesk.KeysApart | tracker/tracker.cpp:2091-2124 | for impression ids without an underscore, keys are equal exactly when both ids are |
| NoticeDesk.KeysMayMeet | tracker/tracker.cpp:2091 | with an underscore in an id two impressions may share a key |
| Notices.ValidIs | tracker/tracker.cpp:2119-2190 | a notice is valid exactly while its bit is clear, a click only once the bit of the impression is set |
| Notices.CommandIs | tracker/tracker.cpp:2119-2196 | a valid win adds 2 to the flag, an impression writes it with 4 more and a click with 8 more for an hour |
| NoticeDesk.Desk.WriteNext | tracker/tracker.cpp:2119-2196 | executing a queued command changes the stored flag as the rule says |
| IpLookup.BuildIndex | common/getlocation.cpp:81-98 | the index has one entry for each block of 256 rows, spanning the block; the rows are read past their end if and only if there are fewer than 256 |
| IpLookup.IndexIsSorted | common/getlocation.cpp:81-98 | the index of a sorted table is sorted |
| IpLookup.Search | common/getlocation.cpp:124-154 | the binary search finds the entry that covers the address, or that there is none, and reads past the list exactly when told to start at its end for an address above it |
| IpLookup.GetRegionCode | common/getlocation.cpp:107-190 | the two searches stay in bounds if and only if the address is not above the last range, and then agree with a plain scan |
| IpLookup.BuildAndLookUp | common/getlocation.cpp:81-190 | building the index and searching stay in bounds if and only if there are 256 rows and the address is not above the last, and then return the code of the containing range, or 0 when there is none |
| IpLookup.RevertFormat | common/getlocation.cpp:38-50 | the shifted sum of the four parts is the address in host order |
| IpLookup.AddressIs | common/getlocation.cpp:38-50 | the four parts are the bytes of the address, the first highest |
| UrlCodec.UrlEncode | common/url_endecode.cpp:36-70 | the encoded text and its NUL fit 3 * len + 1 bytes |
| UrlCodec.UrlDecode | common/url_endecode.cpp:77-112 | decoding in place writes the decoded bytes and a NUL, never past the place read, and leaves the rest of the buffer |
| UrlCodec.DecodeOfEncode | common/url_endecode.cpp:36-112 | decoding undoes encoding on every byte string |
| UrlCodec.EncodeIsPlain | common/url_endecode.cpp:52-63 | encoded text holds no separator and no NUL, and is empty only for the empty string |
| UrlCodec.EncodedIs | common/url_endecode.cpp:36-68 | letters, digits, dash, dot and underscore stay, a space becomes a plus, and every other byte a percent sign with its two hex digits in capitals |
| Base64.GroupLetters | common/base64.c:69-83 | the moved bits are the 6-bit numbers of the 24-bit group, with padding, per section 4 of RFC 4648 |
| Base64.LetterIs | common/base64.c:21-28 | the alphabet is that of table 1 of RFC 4648 |
| Base64.Base64Encode | common/base64.c:51-93 | the text has 4 * ceil(n / 3) characters, is the standard encoding, and is written inside the allocation |
| Base64.Base64Decode | common/base64.c:95-139 | the decoded bytes and the NUL are written inside the allocation; none are given for exactly an empty text, one of a wrong length and, where char is unsigned, one with another character |
| Base64.DecodeOfEncode | common/base64.c:51-139 | decoding undoes encoding on every byte string |
| Base64.EncodeThenDecode | common/base64.c:51-139 | the first loop writes the encoding of the data with its NUL, and the second gives the data back from it |
| Query.GetParamvalue | common/util.cpp:492-524 | for every name, cut off where it does not fit the buffer, the pointer walk finds what the search rule gives |
| Query.ParamIsFirstValue | common/util.cpp:492-524 | in a query of separator-free fields a parameter is the value of the first field of exactly that name, even where longer names end in it |
| Trace.GetTraceUrlPar | common/util.cpp:3276-3349 | the string built is the twenty fields joined |
| Trace.RequestReadsBack | common/util.cpp:3290-3305 | reading bid, at, mapid, impid or impt gives the own value of the request, encoded or in decimal; an empty one is not found |
| Trace.DeviceReadsBack | common/util.cpp:3306-3319 | reading impm, ip, w, h or deviceid gives the own value of the request; an empty one is not found |
| Trace.AppReadsBack | common/util.cpp:3320-3329 | reading deviceidtype, appid, nw, os or gp gives the own value of the request; an empty appid is not found |
| Trace.ModelReadsBack | common/util.cpp:3330-3346 | reading tp, mb, md or op gives the own value of the request, and ds is 1 exactly for a bid of type pap, 0 for another and empty for none |
| Trace.EncodedReadsBack | common/util.cpp:3290-3346 | decoding what is read of an encoded field gives back what was put in; it is not found exactly when that was empty |

## Left out

- Allocation failures, log output, and the connection errors of Redis: allocation and the connections are assumed to succeed.
- `json_saxy_parse`, `json_format_string`, `json_strip_white_spaces`, `json_stream_parse`, `json_stream_output`: text utilities beside the parser.
- The optional string length limit of the parser, and embedded NULs: texts are C strings.
- Redis expiry times, Kafka, Flume, the cache swap and the bid adapters.
- `impclk` and `settle`: older forms of the tracker's counting.
- Price handling, `algo_aes`, the Python bindings and `geoint` functions of geohash.
- JsonFeed.FragmentIndependence: the lexer's own state is not compared when a document is refused before its first brace, because there the cut and the whole text may leave it at different places (`JsonFeed.LexerLeftBehind`).
- JsonParser.ParsingInfo.LexAt: the text the lexer collects is a value, not a growing buffer; `RcString` models that buffer where the printer and the escapes use it.
- JsonDocument.ParseText: the nodes of a refused text are not returned, and `json_parse_document` does not free them (`common/json.c:2798-2802`).
- JsonUnescape.UnescapeText: what the source reads past the end of a text is not modelled; the method reports it.
- JsonFreeHeap.FreeValue: freed nodes are listed, not returned to an allocator.
- GeoFixed.DoubleToCode: requires a magnitude of at least 2^-74, a zero or a subnormal, because a smaller one is shifted by 64 places or more, which the language leaves undefined.
- GeoHash.Encode: takes the quotients by 90 and 180 as doubles; the rounding of the divisions is not modelled.
- GeoHash.Decode: gives the doubles before they are multiplied by 90 and 180.
- GeoWords.WordsToLetters: each run of sixteen assignments, and each run of conditional ones, is one loop over the same expressions.
- Pacing.GroupRestrictionCount: the document is edited as a value; that inserting into a linked document keeps its links is proved in `JsonHeap`.
- Pacing.Fits: the stored daily, hourly and interval counts are below 999999999 because each is printed into ten bytes.
- UserStore.WriteUser: the maps are gone through in any order, not only in key order.
- UserStore.UserRestrictionCount: requires ids that are raw string text; `UserStore.ReadBackIff` says that other ids do not come back.
- UserStore.ReadUser: only documents that the writer produces; labels that are missing or of another type are not modelled.
- UserCaps.Event: the caps of a group are a list in key order, standing for the sorted map of which the first entry is used.
- Notices.NoticesCountOnce: flags do not expire during a run.
- IpLookup.GetRegionCode: takes the address as a number; parsing of the dotted text and the table's file is not modelled.
- IpLookup.RevertFormat: takes the four numbers that `sscanf` read.
- Base64.Base64Decode: requires ASCII where `char` is signed, as other characters are negative indices into the table there.
- Trace.GetTraceUrlPar: the text, width and height that `cal_impm` gives for an impression are inputs.
