# Verified models of the reference application's tools

Dafny models of four pieces of code that are complete in this repository, with proofs of what they are for:

1. **The signalling room server** (`ta/ref-app/wsserver.js`). Clients join a room, post commands to it, ask for a head
   count, and leave. `RoomSpec.dfy` has the server as a state machine over whole handler runs (the JavaScript event loop
   runs each handler to its end) and, beside it, what a connection should hear, told from the history of events alone.
   `RoomInvariants.dfy`, `RoomTheorems.dfy` and `RoomVenue.dfy` prove that the two agree after every history, and
   `RoomFrames.dfy` says frame by frame what one event sends. `RoomServer.dfy` has the server as objects that the
   handlers change in place; every handler is proved to take exactly the state machine's step. `RoomRuns.dfy` drives
   those objects through any sequence of arrivals, messages and departures. `JsArray.dfy` has the array and its variadic
   `remove`.
2. **The RST generator** (`ta/docs-tool/doxygen2rst.py`). `RstTable.dfy` is the grid-table printer,
   `RstTableReader.dfy` a reader that undoes it, and `RstTableShape.dfy` what the text looks like, place by place.
   `RstMissing.dfy`, `RstGenerator.dfy` and `RstReferences.dfy` are the reference dictionaries, the resolution of
   references, and the worklist that writes the page for missing types. `RstNames.dfy` is identifier splitting and
   slugging, and `PyText.dfy` the Python string operations they use.
3. **The YUV pattern builders and the frame checker** (`unittest/shark/CWseVideoProcessingTest.cpp`). `YuvLayout.dfy` has
   4:2:0 images and the byte layouts that store them; `YuvPatterns.dfy` the patterns as images and a reference conversion
   (read the layout, crop a band of rows, turn clockwise, store as I420), whose quarter turns are clockwise and compose
   as quarter turns do (`YuvPatterns.QuarterTurnIsClockwise`, `YuvPatterns.QuarterTurnsCompose`); `YuvFill.dfy` and
   `YuvBuilders.dfy` the loops over the buffer; `YuvPadding.dfy` the side bars and `YuvTurnedPadding.dfy` what a padded
   frame shows; `YuvCheck.dfy` the checker; `YuvUprightYV12.dfy` the one pattern that does not fit; `YuvConversion.dfy`
   the test from end to end; `YuvBytes.dfy` where each sample is and what each pattern holds, in plain numbers.
4. **The Annex B scanner** (`unittest/shark/CWseVideoListenChannelTest.cpp`). `AnnexB.dfy` has the start-code scanner of
   section B.1.1 of ITU-T H.264 over a byte buffer, the loop that cuts the buffer into frames, and streams of units, none
   of which contains 00 00 01 (section 7.4.1 of ITU-T H.264).

What turned out not to hold of the code, with the exact condition under which it does:

- The frame-splitting loop always takes four bytes off for the next start code. A unit comes out whole if and only if it
  is the last one or the start code after it has four bytes (`AnnexB.SplitAfterJoin`); `AnnexB.ThreeByteCodeCutsUnit` is
  a buffer where one does not.
- At rotation 0 the source builder never looks at the video type and interleaves the chroma. For YV12 the pattern then
  converts to the expected one only for an empty band or a single chroma sample that falls right
  (`YuvUprightYV12.UprightYV12ConvertsIff`).
- Side bars black out whole chroma blocks consistently at every padding except an odd bar of exactly half the width
  (`YuvPadding.BarsAreConsistentIff`).
- The padding for rotation 270 expects a band of the turned picture that starts one row below the middle of what is
  cropped away, and only where half of what is cropped away is odd. Otherwise its three planes belong to different bands,
  and no crop can pass (`YuvTurnedPadding.TurnedPaddingShowsABandIff`, `YuvConversion.PaddedConversionTest`).
- The generator compares displayed names within one page or one round only. A run can succeed although the page for
  missing types defines one name twice with different targets (`RstReferences.RoundsDoNotPreventClashes`). A run that
  succeeds has unambiguous notes there if and only if no two items that are reached in different rounds show one name for
  ids on different pages (`RstReferences.FootnoteIsUnambiguousIff`).
- A printed table reads back exactly if and only if no cell line ends in a space and no cell ends in a blank line
  (`RstTableReader.PrintedTableIsExactIffTidy`); a table given as lines comes back as those lines if and only if, in
  addition, no line holds a line terminator (`RstTableReader.WrittenTableReadsBackIff`).
- Page and tag of an id, joined by an underscore, give the id back if and only if the id has an underscore
  (`RstNames.GetPageSplitsAtLastUnderscore`).

Modelling choices. The Python is Python 2, so text is a byte string: lines end in LF, CR or CR LF, whitespace is the six
ASCII characters, and lower-casing changes A to Z only. A dictionary is walked by picking any remaining key, so that
every result holds whatever the iteration order. An assertion of the source that fails ends the run; methods return
`ok == false` for it. A frame of the room server is a value (join count, echo count, or a relayed command) in place of
its JSON text; what a connection has been sent is its field `sent`, and sending appends to it. Values stored into a
frame buffer are taken modulo 256. Conversions to a 32-bit unsigned length are written out in `AnnexB.AsUnsigned`.
Proofs and methods name with `hide` the definitions that they do not unfold, which keeps every obligation small.

## Model

| member | source | states |
|---|---|---|
| JsArrays.JsArray.Remove | ta/ref-app/wsserver.js:27-36 | in place, in spite of the early exit and the splicing while searching, leaves exactly the elements not among the arguments, in order; both loops end |
| JsArrays.FilterOutCounts | ta/ref-app/wsserver.js:27-36 | after removal no argument is left and every other element is there as often as before |
| RoomServer.Server.SendToRoom | ta/ref-app/wsserver.js:57-66 | every peer of the room but the sender is sent the frame once; nobody else is sent anything |
| RoomServer.Server.Enter | ta/ref-app/wsserver.js:80-84 | the room is made if need be, the newcomer is last in its array, no other room changes |
| RoomServer.Server.Greet | ta/ref-app/wsserver.js:87-92 | the newcomer is sent the head count and then the venue if there is one; nobody else is sent anything |
| RoomServer.Server.OnRequest | ta/ref-app/wsserver.js:70-92 | the objects stay what the history makes of them, extended by this join; the newcomer is the one new connection, and every room and array is an old or a new object |
| RoomServer.Server.OnMessage | ta/ref-app/wsserver.js:95-117 | for an open connection no lookup fails, and the objects stay what the history makes of them, extended by this message; rooms, arrays and connections stay the same objects |
| RoomServer.Server.OnClose | ta/ref-app/wsserver.js:120-130 | for any connection ever accepted, closed before or not, the objects stay what the history makes of them, extended by this close; what is left are old rooms and arrays |
| RoomInvariants.RunIsConsistent | ta/ref-app/wsserver.js:78-130 | after every history a room is stored exactly while somebody is in it, lists its open connections without repetition, and holds the last venue posted since it was last empty |
| RoomInvariants.OneSeatPerOpenConnection | ta/ref-app/wsserver.js:79-84 | a connection is in a room's array if and only if it is open and the room is its own; no stored room is empty |
| RoomInvariants.OpenIsStored | ta/ref-app/wsserver.js:103-116 | the room lookup of a message handler always succeeds for an open connection |
| RoomInvariants.PeerCountsAddUp | ta/ref-app/wsserver.js:84-87 | the arrays of all rooms together are as long as there are open connections |
| RoomTheorems.EventDelivers | ta/ref-app/wsserver.js:57-117 | what one event sends on a connection is its share of the room's new log entry, while it is open, and nothing otherwise |
| RoomFrames.JoinIsGreeted | ta/ref-app/wsserver.js:80-92 | a newcomer is sent the number of members with itself, then the venue if the room has one, in this order; nobody else is sent anything |
| RoomFrames.MessageIsSent | ta/ref-app/wsserver.js:95-117 | an echo sends the head count to its sender alone; any other command goes to the other members of the room, once each, and to nobody else |
| RoomFrames.CloseSendsNothing | ta/ref-app/wsserver.js:120-130 | a close sends nothing |
| RoomTheorems.DeliveryMatchesLog | ta/ref-app/wsserver.js:57-117 | after every history, a connection has been sent its join frame with the true head count, the venue at its join if any, and then exactly the room's log from its joining to its leaving, filtered to what others post and to its own echo replies |
| RoomTheorems.PeersOfARoomAgree | ta/ref-app/wsserver.js:57-66 | from the later join on, two open peers hear shares of one log, and what reaches both reaches them in one order |
| RoomServer.ObjectsAgreeWithHistory | ta/ref-app/wsserver.js:57-117 | wherever the objects are what a history makes of them, each connection's `sent` holds what its room's log says it should have heard, and for an open connection the stored venue is the one it knows |
| RoomRuns.Serve | ta/ref-app/wsserver.js:70-131 | the objects driven through any sequence of arrivals, messages and departures from the start: the history is that of the actions, and every connection has really been sent what its room's log says it should have heard |
| RoomRuns.EveryHistoryIsServed | ta/ref-app/wsserver.js:70-131 | every history that the transport can deliver is the history of some such actions |
| RoomVenue.EveryoneKnowsTheVenue | ta/ref-app/wsserver.js:88-115 | in every reachable state the latest venue that an open connection has posted or been sent is the stored one, and it knows of none exactly when none is stored |
| RoomVenue.EmptyRoomForgets | ta/ref-app/wsserver.js:127-129 | whoever joins a room that nobody is in is sent a head count of one and no venue |
| RstTable.BuildRowBreaker | ta/docs-tool/doxygen2rst.py:347-351 | prints the separator that the reader takes the widths from |
| RstTable.BuildRow | ta/docs-tool/doxygen2rst.py:359-377 | prints as many lines as the tallest cell has, each cell padded to its column |
| RstTable.BuildTable | ta/docs-tool/doxygen2rst.py:379-396 | prints the table whose reading is `ReadUndoesPrint`, with the widths of `ColumnWidthIsLeast` |
| RstTable.ColumnWidthIsLeast | ta/docs-tool/doxygen2rst.py:381-386 | a column is exactly as wide as its longest line and two more, or 0 without lines; no narrower width holds all lines |
| RstTableReader.ReadWidthsOfBreaker | ta/docs-tool/doxygen2rst.py:347-351 | the widths can be read off a separator, also where columns are 0 wide |
| RstTableReader.ReadUndoesPrint | ta/docs-tool/doxygen2rst.py:359-396 | for any rows, whatever characters their cells hold, reading the printed text by width gives every cell's lines without trailing spaces and trailing blank lines |
| RstTableReader.PrintedTableIsExactIffTidy | ta/docs-tool/doxygen2rst.py:359-396 | the text reads back to the very lines of every cell if and only if no line ends in a space and no cell ends in a blank line |
| RstTableReader.WrittenTableReadsBackIff | ta/docs-tool/doxygen2rst.py:359-396 | cells written as lists of lines, printed and read, are those lists again if and only if no line holds a line terminator or ends in a space and no cell ends in a blank line |
| RstTableReader.PrintedLinesHaveOneLength | ta/docs-tool/doxygen2rst.py:359-396 | every physical line is as long as the column widths together and four more |
| RstTableShape.TableIsAGrid | ta/docs-tool/doxygen2rst.py:347-396 | bars and plus signs stand in the same four places of every line; below each row a line of dashes between plus signs; the row has as many lines as its tallest cell, which show the cells' characters and blanks; there are no other lines |
| RstTableShape.TableBeginsWithSeparator | ta/docs-tool/doxygen2rst.py:379-389 | the top line is dashes between plus signs in those places |
| PyText.LineEnds | ta/docs-tool/doxygen2rst.py:364-384 | a cell's lines end at LF, CR or CR LF and nowhere else |
| PyText.PaddingFills | ta/docs-tool/doxygen2rst.py:350-375 | `ljust` on the empty string fills exactly the asked number of places, and none for zero or a negative number |
| RstNames.GetPageSplitsAtLastUnderscore | ta/docs-tool/doxygen2rst.py:13-21 | an id has a tag exactly when it ends in 32 hexadecimal digits; the tag is what follows the last underscore; page, underscore and tag give the id back if and only if it has an underscore |
| RstNames.SlugSplitsIntoTitleWords | ta/docs-tool/doxygen2rst.py:95-100 | a slug is non-empty lower-case words without punctuation, joined by single hyphens, and splits back into them |
| RstNames.WordsKeepEveryCharacter | ta/docs-tool/doxygen2rst.py:98-99 | splitting a title into words loses nothing but whitespace |
| RstNames.SlugKeepsCharacters | ta/docs-tool/doxygen2rst.py:95-100 | the letters of a slug are the title's characters, without punctuation and whitespace, capitals replaced by the small letters of the alphabet |
| RstNames.TitleIsCut | ta/docs-tool/doxygen2rst.py:97-98 | a title is cut into words at every punctuation or whitespace character |
| RstNames.UncutTitleIsOneWord | ta/docs-tool/doxygen2rst.py:97-98 | and nowhere else |
| RstNames.SlugIsIdempotent | ta/docs-tool/doxygen2rst.py:95-100 | slugging a slug changes nothing |
| RstNames.SlugsAgreeIffTitleWordsAgree | ta/docs-tool/doxygen2rst.py:95-100 | two titles have one anchor exactly when they have the same lower-case words |
| RstGenerator.Generator.BuildRef | ta/docs-tool/doxygen2rst.py:204-218 | records the link, unless the name already stands for another id: then the assertion fails, and only then |
| RstMissing.NameIsAfterLastColon | ta/docs-tool/doxygen2rst.py:205-208 | the displayed name is the stripped text, or what follows its last colon |
| RstMissing.StripTakesSpaces | ta/docs-tool/doxygen2rst.py:205 | stripping takes all whitespace off both ends and nothing else |
| RstMissing.KeyIsQuotedName | ta/docs-tool/doxygen2rst.py:208 | the key is the name between backquotes |
| RstGenerator.Generator.BuildPageRefNotes | ta/docs-tool/doxygen2rst.py:548-573 | one note for each recorded key, in any order; each missing id is on the list afterwards with its page and tag, and nothing else is added; the dictionary is empty afterwards |
| RstGenerator.Generator.FinishRound | ta/docs-tool/doxygen2rst.py:530-540 | a round renders each missing item once and leaves exactly the newly mentioned missing ids that were not written before, with their pages and tags |
| RstGenerator.Generator.BuildMissedTypesAndStructs | ta/docs-tool/doxygen2rst.py:521-546 | ends; succeeds exactly when no round uses one name for two ids; writes each item of the least closure of the seeds once, and nothing else |
| RstGenerator.Generator.Generate | ta/docs-tool/doxygen2rst.py:171-187 | the whole run succeeds exactly when no page and no round uses one name for two ids, and then resolves every reference of every page |
| RstMissing.RoundShrinks | ta/docs-tool/doxygen2rst.py:529-540 | what is left to visit gets strictly smaller in every round |
| RstMissing.AllRoundsIsLeastClosure | ta/docs-tool/doxygen2rst.py:529-540 | the rounds together are the least set that holds the seeds and every missing id that rendering its items mentions |
| RstMissing.LeastClosureIsUnique | ta/docs-tool/doxygen2rst.py:529-540 | that set is unique, so dictionary order cannot change it |
| RstMissing.FunctionalOverallThenPerRound | ta/docs-tool/doxygen2rst.py:204-218 | names that are unambiguous over all written items never make the assertion fail |
| RstMissing.SplitsAtDoubleColons | ta/docs-tool/doxygen2rst.py:561 | cutting keeps a text without two colons, and drops what comes before the first two |
| RstReferences.AnchorIsLowerCaseName | ta/docs-tool/doxygen2rst.py:551-570 | the anchor is always the lower-case displayed name: neither the cut at a double colon nor the title slug ever changes it |
| RstReferences.NoteLeadsTo | ta/docs-tool/doxygen2rst.py:551-571 | a note leads to the page of its id, else to the page of the id's enclosing page, else to the page for missing types |
| RstReferences.GenerateAll | ta/docs-tool/doxygen2rst.py:171-187 | the generator from end to end: when it succeeds, what it writes is documented neither itself nor by its page, and every reference to such an id on a page or in a written item is written; every reference on a page has exactly one note under that page and every reference in a written item has its note on the page for missing types; each leads to the page of its id, to the page that encloses it, or to an item that was written; the notes of the page for missing types give each name one target if and only if the rounds keep names apart |
| RstReferences.WrittenItemsAreMissingAndMentioned | ta/docs-tool/doxygen2rst.py:529-540 | a written item that is no seed is documented nowhere and is mentioned by another written item |
| RstReferences.FootnoteIsUnambiguousIff | ta/docs-tool/doxygen2rst.py:535-542 | for any seeds whose rounds pass the assertion, the notes of the page for missing types give each name one target if and only if no two items reached in different rounds show one name for ids on different pages |
| RstReferences.RoundsDoNotPreventClashes | ta/docs-tool/doxygen2rst.py:529-542 | a project and a page for which every assertion of the run holds, while the page for missing types gives one name two targets |
| YuvLayout.DecodeUndoesEncode | unittest/shark/CWseVideoProcessingTest.cpp:690-716 | in each layout the planes of an image are stored apart: the image comes back from its bytes |
| YuvLayout.EncodeUndoesDecode | unittest/shark/CWseVideoProcessingTest.cpp:690-716 | together the planes cover the frame: every frame-sized byte string is the layout of exactly such an image |
| YuvBytes.LumaByteAt | unittest/shark/CWseVideoProcessingTest.cpp:664-669 | sample (r, c) of luma is byte r w + c in every layout |
| YuvBytes.PairBytesAt | unittest/shark/CWseVideoProcessingTest.cpp:691-702 | behind the luma of an NV12 frame, V and U of place (r, c) are the bytes r w + 2 c and the next |
| YuvBytes.PlaneBytesAt | unittest/shark/CWseVideoProcessingTest.cpp:703-716 | behind the luma, YV12 has the V plane first and I420 the U plane, a quarter of the luma size each |
| YuvBuilders.SourceDataFill | unittest/shark/CWseVideoProcessingTest.cpp:654-794 | for all even sizes, every rotation and type, the buffer begins with the source pattern's frame and nothing behind it changes |
| YuvBuilders.ExpectedDataFill | unittest/shark/CWseVideoProcessingTest.cpp:795-879 | for all even sizes and every rotation, the buffer begins with the expected pattern's frame and nothing behind it changes |
| YuvPatterns.SourceFrameLength | unittest/shark/CWseVideoProcessingTest.cpp:654-794 | the source builder writes a whole frame and no more, two thirds of it for a type it does not know at 90, 180 or 270 degrees, and nothing for an unknown rotation |
| YuvPatterns.ExpectedFrameLength | unittest/shark/CWseVideoProcessingTest.cpp:795-879 | the expected builder writes a whole frame and no more at 0, 90, 180 and 270 degrees, and nothing for an unknown rotation |
| YuvBytes.SourceSamples | unittest/shark/CWseVideoProcessingTest.cpp:654-794 | every sample of the source pattern, modulo 256 |
| YuvBytes.ExpectedSamples | unittest/shark/CWseVideoProcessingTest.cpp:795-879 | every luma sample of the expected pattern at each rotation, modulo 256 |
| YuvBytes.ExpectedChromaSamples | unittest/shark/CWseVideoProcessingTest.cpp:795-879 | every chroma sample of the expected pattern at each rotation, modulo 256 |
| YuvPatterns.SourceConvertsToExpected | unittest/shark/CWseVideoProcessingTest.cpp:654-879 | for all even sizes and any even band of rows, the expected frame is the source frame read in its layout, cropped and turned clockwise, for NV12 at every rotation and YV12 at 90, 180 and 270 degrees |
| YuvUprightYV12.UprightYV12ConvertsIff | unittest/shark/CWseVideoProcessingTest.cpp:662-679 | at rotation 0 that holds of YV12 exactly for an empty band, or a band of one chroma sample in an even chroma row of a frame of one chroma column and an odd number of chroma rows |
| YuvPadding.ExpectedDataPadding | unittest/shark/CWseVideoProcessingTest.cpp:881-934 | whatever image the buffer holds, at rotation 0 its three planes get their side bars, at rotation 270 also the ramps between them, for any padding; other rotations and every other byte are left alone |
| YuvBytes.HalfIs | unittest/shark/CWseVideoProcessingTest.cpp:889-890 | a padding is halved towards zero, for either sign |
| YuvBytes.PaddedLuma | unittest/shark/CWseVideoProcessingTest.cpp:891-919 | every luma sample after padding: 0 in the bars, at rotation 270 a falling ramp between them, for any padding |
| YuvBytes.PaddedChroma | unittest/shark/CWseVideoProcessingTest.cpp:900-933 | every chroma sample after padding: 0x80 in the bars, at rotation 270 a rising ramp of U and a falling ramp of V between them, for any padding |
| YuvPadding.BarsAreConsistentIff | unittest/shark/CWseVideoProcessingTest.cpp:889-910 | in every padded image, at every place, both chroma samples are neutral where the whole 2x2 block of luma lies in the black bars and kept elsewhere, if and only if the bar is not an odd one of exactly half the width |
| YuvTurnedPadding.TurnedPaddingShowsABandIff | unittest/shark/CWseVideoProcessingTest.cpp:911-933 | the expected frame with the padding of rotation 270 is some band of the turned source picture between two bars if and only if half of the rows cropped away is odd (or nothing shows) |
| YuvTurnedPadding.ShowsBandIff | unittest/shark/CWseVideoProcessingTest.cpp:911-933 | which band that is: the one that starts one row below the middle of what is cropped away, up to the 256 levels of a byte |
| YuvTurnedPadding.UprightPaddingCentres | unittest/shark/CWseVideoProcessingTest.cpp:889-910 | the expected upright frame with bars is the smaller upright picture between two bars |
| YuvCheck.CheckPixelRight | unittest/shark/CWseVideoProcessingTest.cpp:936-964 | for any size, counts the differing bytes of the luma part and of the two chroma parts |
| YuvCheck.DifferencesAreCounted | unittest/shark/CWseVideoProcessingTest.cpp:948-961 | that count is the number of places that differ |
| YuvCheck.CheckSeesWholeFrame | unittest/shark/CWseVideoProcessingTest.cpp:936-964 | for even sizes these are all the bytes of the frame, each once, so that the check passes if and only if the frames are equal |
| YuvConversion.ConversionTest | unittest/shark/CWseVideoProcessingTest.cpp:654-964 | filling, converting, filling and comparing: no comparison fails for NV12 at any rotation and for YV12 at 90, 180 and 270 degrees, for any even size and band; for YV12 at rotation 0 if and only if the bands look planar |
| YuvConversion.PaddedConversionTest | unittest/shark/CWseVideoProcessingTest.cpp:795-964 | the same at rotation 270 with padding: no comparison fails if and only if the picture was cropped at the row that the padding expects |
| AnnexB.DetectStartCodePrefix | unittest/shark/CWseVideoListenChannelTest.cpp:510-530 | returns the position that the plain search finds, or NULL and an untouched offset; reads stay in the buffer for every size, and the loops end |
| AnnexB.FirstPrefixEndIsLeast | unittest/shark/CWseVideoListenChannelTest.cpp:510-530 | the plain search finds the least position after 00 00 01, and none exactly when there is no 00 00 01 |
| AnnexB.PrefixIs | unittest/shark/CWseVideoListenChannelTest.cpp:513-526 | a start code prefix is the bytes 00 00 01 |
| AnnexB.UnsignedIs | unittest/shark/CWseVideoListenChannelTest.cpp:568 | a length is taken modulo 2^32 |
| AnnexB.SplitFrames | unittest/shark/CWseVideoListenChannelTest.cpp:553-582 | the loop with its pointer, offset and size variables hands over the frames of `Frames`, wrap-arounds included; nothing for a buffer without a start code |
| AnnexB.StreamIs | unittest/shark/CWseVideoListenChannelTest.cpp:411 | each unit of a stream follows 00 00 00 01 or 00 00 01 |
| AnnexB.SplitAfterJoin | unittest/shark/CWseVideoListenChannelTest.cpp:553-582 | for any clean units with three- or four-byte start codes, after any bytes without one, turn i starts at unit i mod n, and claims exactly that unit if and only if it is the last one or the next start code has four bytes |
| AnnexB.SplitUndoesJoin | unittest/shark/CWseVideoListenChannelTest.cpp:553-582 | with four-byte start codes the frames are the units, in a cycle, also for empty units and units that end in zero bytes |
| AnnexB.ThreeByteCodeCutsUnit | unittest/shark/CWseVideoListenChannelTest.cpp:567-573 | a buffer of nine bytes for which the first frame is one byte short of its unit |
| AnnexB.EveryBufferIsAStream | unittest/shark/CWseVideoListenChannelTest.cpp:510-530 | every buffer that holds a start code is the stream of some clean units after bytes without one, so the above speaks of all of them |

## Left out

- SourceDataFill: is stated for even widths and heights, the only ones with a 4:2:0 frame; ExpectedDataFill and ExpectedDataPadding likewise. The unsigned product of width and height does not wrap around.
- ExpectedDataPadding: takes bars that fit into the frame; wider ones make the source write outside its rows.
- TurnedPaddingShowsABandIff: is stated for paddings that are multiples of four, the only ones that centre a picture in luma and chroma alike; what the buffer holds for other paddings is in ExpectedDataPadding.
- SplitFrames: takes buffers of at most 2^31 - 1 bytes, and hands over nothing where the source goes on with a null pointer and an offset that was never set.
- OnMessage: takes a parsed command from a connection that is still open. Malformed JSON and JSON without members such as `null`, for which the handler throws before it changes anything, and messages after a close, which the transport does not deliver, are not modelled.
- Room ids are opaque keys: ids that name members every JavaScript object inherits are not modelled, nor is NaN, which `indexOf` never finds.
- Sockets, the HTTP server, command-line arguments, logging, and the JSON text of frames.
- Titles, paragraphs, code blocks, PlantUML and the XML and RST files of the generator: rendering an item is the list of references that it emits, and an item whose XML file is missing emits none instead of raising an error.
- Non-ASCII whitespace, line separators and letters, which only Python's unicode strings treat as such.
- The text that `_build_ref` returns for a reference, and the layout of a note's line beyond its key, page and anchor.
- The pipelines that the tests feed with these patterns, and every class that is used by a test but not defined in this repository.
