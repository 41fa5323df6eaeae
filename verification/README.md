# Verification of the cJSON library and of the stateful parts of the DVB hardware layer

The model covers five components. Each is written in the form its source has: parsers, printers, editors and
handles are classes and methods with loops, proved against functions; two multi-threaded components are state
machines over their critical sections, proved over all runs; the properties are lemmas about those functions and
runs.

**cJSON** (`hw/src/cJSON.c`, version 1.7.13)

- `Bytes`, `JsonTree`: bytes of C text; trees of null, booleans, numbers, strings, arrays and objects. A number is a
  decimal mantissa and exponent.
- `JsonRender`, `JsonPrinter`: the text of a tree as a function, and the printer as a class over its growable or
  caller-owned buffer. Every routine is proved to leave exactly the rendered text, for every starting length, and to
  fail exactly when the final text plus two bytes does not fit.
- `JsonString`, `JsonNumber`, `JsonGrammar`, `JsonParser`: the two passes of `parse_string`, `strtod` on what the
  parser hands it, the recursive descent as a function, and the parser as a class over its offset and depth.
- `JsonText`: every text of RFC 8259 as data, with its layout, its escapes and its way of writing numbers, what it
  denotes, and which of these texts the parser accepts, with which value.
- `JsonLenient`: the texts that the parser accepts beyond those, as data too, and that it accepts nothing else.
- `JsonRoundTrip`: printing writes one of these texts for the tree, so parsing inverts printing.
- `JsonLayout`: where printed text has white space and line breaks, told from its tokens alone.
- `JsonMinify`: `cJSON_Minify` working inside its argument, refined by a function of the original text.
- `JsonMinifyMeaning`: which texts keep their meaning when they are minified, and which spellings of strings are safe.
- `JsonCompare`: `cJSON_Compare`, case sensitive, and the values that trees denote.
- `JsonList`: the doubly linked child list, with the cached tail in the first item's `prev`.

**Analogue frontend** (`hw/atv/atv_vlfend.c`): `Vlfend` interleaves the monitor thread with a client of
`AM_VLFEND_SetCallback` and `AM_VLFEND_Lock`, one shared access a step. Heap blocks and the stack frames of calls are
tracked, so that a pointer to a frame that is gone, or to freed data, is visible.

**Demux filters** (`hw/src/linuxdvbdmx_wrapper.c`): `DmxFilter` has one step for each critical section. Every
descriptor ever opened is logged with its opener and its closer, and every allocation of a slot has a number. The
class `Demux` is the filter array with the operations in place.

**PMT and CA sessions** (`hw/src/ca_glue_amlmp.c`): `Pmt` has sections as section 2.4.4.8 of ISO/IEC 13818-1 lays them
out, their bytes, what they say, and reading them; `PmtReader` builds the `CA_LIST`. `CaSessions` has the session and
stream lists of a handle as values, and runs of many handles; `CaHandle` has the linked lists themselves, appended
through their tail pointers, and the calls that work on them.

**Base64 keys** (`hw/src/stbhwci.c`): `Base64Key` has `DecodeKey` and the encoding of section 4 of RFC 4648.

Four properties turned out to hold only in part, and have their exact condition:

- `cJSON_Minify` looks for `\"` and no other escape inside a string. It deletes exactly the insignificant white space
  and the comments of a JSON text, however they are placed, if and only if no string literal ends in an escaped
  backslash. For one given text it does so if and only if it is outside of what it takes for a string at all white
  space and all comments between tokens, and meets neither white space nor a slash of a literal there. It keeps the
  meaning of a text whatever safe string follows a literal if and only if that literal does not end in an escaped
  backslash. Otherwise white space stays, as in `["\\" ]`, or a string changes, as in `["\\"," "]`.
- `parse_number` hands at most 63 characters to `strtod`. A text of RFC 8259 with a longer number is rejected, except
  that a text which is nothing but one such number, and need not be read to its end, is accepted with the number that is
  left of it. A string with `\u0000` in it is accepted and cut there.
- `STB_CAPVRRecordStart` reads the first listed stream without looking whether there is one. It reads a null pointer
  after the report of a program with a supported CA descriptor but no streams, and after a report without any supported
  descriptor if an earlier one has left a session node, as when a scrambled programme is followed by a clear one.
- `AM_VLFEND_Lock` can succeed with the status of an event from before its request if and only if the monitor had polled
  that event and was waiting to set RUN_CB when the request was made, whatever callback is installed and whatever came
  before; `vlfend_lock_cb` has the check that would reject such an event commented out.

Where code and documentation disagree, the code is modelled:

- `inc/cJSON.h:162` advises five bytes more than the text for `cJSON_PrintPreallocated`; two more than the text without
  its NUL are enough, and fewer never are.
- The comment on `DecodeKey` says that the data pointer is moved behind the key; the pointer is passed by value.

## Model

| member | source | states |
|---|---|---|
| JsonPrinter.PrintPreallocated | hw/src/cJSON.c:1296-1313 | succeeds if and only if the length is at least the rendered length plus 2, and then the buffer holds exactly the text and its NUL; the caller's bytes behind the length are never changed |
| JsonPrinter.Print | hw/src/cJSON.c:1191-1253 | with a growing buffer, succeeds exactly below INT_MAX and returns exactly the rendered text; every reallocation doubles the capacity, so that for each starting length, 0 too, their number is logarithmic in that of the text |
| JsonPrinter.PrintBuffer.Ensure | hw/src/cJSON.c:445-530 | grants a demand exactly when it fits the limit; all bytes before the offset survive a reallocation, and each one more than doubles the length or stops at INT_MAX |
| JsonPrinter.PrintBuffer.UpdateOffset | hw/src/cJSON.c:533-543 | moves the offset to the NUL that ends what was stored |
| JsonPrinter.PrintBuffer.PrintNumber | hw/src/cJSON.c:553-616 | an integer below 10^15 in magnitude is printed in plain decimal |
| JsonPrinter.PrintBuffer.PrintString | hw/src/cJSON.c:906-1025 | the counting pass and the writing pass agree: the buffer gets exactly the quoted and escaped string, within what was demanded |
| JsonPrinter.PrintBuffer.PrintValue | hw/src/cJSON.c:1371-1442 | behind any text, the buffer gets exactly the rendered value, and fails exactly if that plus 2 exceeds the limit |
| JsonPrinter.PrintBuffer.PrintArray | hw/src/cJSON.c:1543-1602 | the same for arrays; every inner demand is dominated by the final one, and success restores the depth |
| JsonPrinter.PrintBuffer.PrintObject | hw/src/cJSON.c:1718-1829 | the same for objects, with indentation, keys and separators |
| JsonLayout.PrintedLayout | hw/src/cJSON.c:1371-1829 | told from the tokens: unformatted text has nothing between them; formatted text is the same tokens, each name and each closing brace of an object on a line of its own behind as many tabs as it is deep, a tab behind each colon, a space behind each comma of an array, and nothing else |
| JsonLayout.MinifiedPrint | hw/src/cJSON.c:2825-2871 | minifying formatted text gives the unformatted text if and only if minifying is in step with it |
| JsonRender.RenderNulFree | hw/src/cJSON.c:1371-1442 | the rendered text of a printable tree is a C string |
| JsonRender.EscapeConcat | hw/src/cJSON.c:960-1025 | escaping works byte by byte |
| JsonRender.IntTextFits | hw/src/cJSON.c:553-616 | a printed integer fits the 26 bytes of number_buffer |
| JsonString.Room | hw/src/cJSON.c:785-823 | the single allocation, shortened by the escapes that were counted, covers all bytes written up to any position of the second pass, even one past the closing quote |
| JsonString.EscapesAreSparse | hw/src/cJSON.c:785-823 | between any two positions there are at most as many counted escapes as bytes, also where the second pass steps differently from the scan that counts |
| JsonString.Utf8IsAForm | hw/src/cJSON.c:719-774 | the bytes written are a UTF-8 form of the code point, section 3 of RFC 3629 |
| JsonString.Utf8IsTheForm | hw/src/cJSON.c:719-774 | and the only one |
| JsonString.ScanFindsEnd | hw/src/cJSON.c:785-810 | the first pass finds the closing quote of every well-formed literal |
| JsonString.UnitsRead | hw/src/cJSON.c:656-718 | a high and a low surrogate are joined; a lone surrogate of either kind is rejected |
| JsonString.DecodeIsMeaning | hw/src/cJSON.c:823-884 | the second pass yields the UTF-8 of what the literal denotes by section 7 of RFC 8259, and fails exactly where a surrogate stands alone |
| JsonString.EscapeMeansItself | hw/src/cJSON.c:906-1025 | what the printer writes for a string is a literal that denotes that string |
| JsonString.EscapeIsShortest | hw/src/cJSON.c:960-1025 | no piece of RFC 8259 that denotes a byte is shorter than what is printed for it, and printed hexadecimal digits are in lower case |
| JsonNumber.StrtodReads | hw/src/cJSON.c:311-385 | every number of section 6 of RFC 8259, and also one with leading zeros or without digits on one side of its point, is read to its end, with the value its digits, fraction and exponent write |
| JsonNumber.CutRead | hw/src/cJSON.c:327-360 | of a longer number than 63 characters, strtod gets the first 63 and reads the longest number they begin with; an exponent without digits is left |
| JsonNumber.IntIsNumeral | hw/src/cJSON.c:553-616 | what is printed for an integer is such a number, of that value |
| JsonNumber.RunIsText | hw/src/cJSON.c:327-352 | the characters collected for strtod are exactly the number, in front of anything else |
| JsonGrammar.SkipSpace | hw/src/cJSON.c:1042-1065 | never lowers the offset and never leaves the text |
| JsonGrammar.ParseValue | hw/src/cJSON.c:1316-1368 | success raises the offset and stays inside the text; an error position is inside it |
| JsonGrammar.ParseText | hw/src/cJSON.c:1083-1176 | for every text, the end of parsing or the error position is inside the text or at its NUL |
| JsonParser.ParseBuffer.SkipWhitespace | hw/src/cJSON.c:1042-1065 | every access is below the length; computes the skipping function |
| JsonParser.ParseBuffer.SkipByteOrderMark | hw/src/cJSON.c:1068-1081 | skips a byte order mark at the start, and nothing else |
| JsonParser.ParseBuffer.ParseHex4 | hw/src/cJSON.c:619-652 | the number that four hex digits write, 0 if one is malformed |
| JsonParser.ParseBuffer.ReadUtf16Literal | hw/src/cJSON.c:656-718 | length and code point of a \u escape or a pair of them, with masks and shifts as in the code |
| JsonParser.ParseBuffer.WriteUtf8 | hw/src/cJSON.c:719-774 | writing the bytes from the last to the first gives the UTF-8 form; no code point is out of range |
| JsonParser.ParseBuffer.ScanString | hw/src/cJSON.c:785-810 | finds the closing quote and counts the escapes before it |
| JsonParser.ParseBuffer.DecodeString | hw/src/cJSON.c:823-884 | within the one allocation, writes exactly what the literal decodes to, or fails at the malformed escape |
| JsonParser.ParseBuffer.ParseString | hw/src/cJSON.c:777-902 | both passes together compute the string function, on every input |
| JsonParser.ParseBuffer.ParseNumber | hw/src/cJSON.c:311-385 | at most 63 characters are copied, and the offset moves by what strtod has used |
| JsonParser.ParseBuffer.ParseValue | hw/src/cJSON.c:1316-1368 | computes the value function; terminates for every text |
| JsonParser.ParseBuffer.ParseArray | hw/src/cJSON.c:1445-1540 | computes the array function; beyond the nesting limit it fails, and success restores the depth |
| JsonParser.ParseBuffer.ParseObject | hw/src/cJSON.c:1605-1715 | computes the object function, with the same limit |
| JsonParser.ParseWithOpts | hw/src/cJSON.c:1083-1176 | the class, run on any text, gives the same tree, end and error position as the grammar |
| JsonText.LiteralParsed | hw/src/cJSON.c:777-902 | a quoted literal is parsed to what it denotes, cut at the first NUL if \u0000 is in it, and left behind its closing quote, or fails exactly where a surrogate stands alone |
| JsonText.NumberRead | hw/src/cJSON.c:311-385 | a number of at most 63 characters in front of anything else is parsed to its value |
| JsonText.LongNumberRead | hw/src/cJSON.c:311-385 | a longer one is parsed to what is left of it, and parsing stands in front of one of its own characters, which nothing that may follow a value begins with |
| JsonText.TextRead | hw/src/cJSON.c:1316-1368 | a value in any layout, anywhere in a text, is parsed exactly if it denotes something, is not nested too deeply and has no number of more than 63 characters, to what it denotes with strings cut at NUL, and left right behind it; a number too long is cut |
| JsonText.ElementsRead | hw/src/cJSON.c:1445-1540 | the same for the elements of an array, with white space around each |
| JsonText.FieldsRead | hw/src/cJSON.c:1605-1715 | the same for the names and values of an object |
| JsonText.DocumentParsed | hw/src/cJSON.c:1083-1176 | every text of RFC 8259, with or without a byte order mark, and also with control bytes as white space or in strings and with numbers as strtod knows them, is accepted if and only if no surrogate stands alone in it, its nesting is at most CJSON_NESTING_LIMIT and no number has more than 63 characters; the result is the value it denotes, with strings cut at their first NUL, and parsing ends behind the value, or at the NUL if that is asked for. The one exception: a lone longer number that need not be read to its end gives the number left of it |
| JsonLenient.StringIsLenient | hw/src/cJSON.c:777-902 | whatever parse_string accepts is quoted, without an unescaped quote, in pieces that denote the string it yields; the only pieces beyond RFC 8259 are control bytes and malformed digits behind \u, which end the string |
| JsonLenient.StrtodIsLenient | hw/src/cJSON.c:311-385 | whatever strtod reads of a run that parse_number hands it is a number, with that value |
| JsonLenient.ValueIsLenient | hw/src/cJSON.c:1316-1368 | whatever parse_value accepts is written as a value of the lenient grammar is, within the nesting limit, and it yields what that value denotes |
| JsonLenient.AcceptedIsLenient | hw/src/cJSON.c:1083-1176 | whatever the parser accepts is, up to where it has read, the text of a lenient document, and the tree is what the document denotes; if it must be read to its end, it is all of the text |
| JsonLenient.ErrorAtStart | hw/src/cJSON.c:1083-1176 | if the first visible byte starts no value, or there is none, the text is refused and the error is there |
| JsonLenient.ErrorBehindValue | hw/src/cJSON.c:1083-1176 | a text that must be read to its end is refused exactly if something visible stands behind the value, and the error is there |
| JsonRoundTrip.LayoutMeans | hw/src/cJSON.c:1371-1829 | the layout that printing chooses is a text that denotes the tree, nested as the tree is |
| JsonRoundTrip.LayoutIsPrinted | hw/src/cJSON.c:1371-1829 | and it is exactly what is printed |
| JsonRoundTrip.RoundTrip | hw/src/cJSON.c:1083-1829 | parsing what was printed for a tree gives the tree and ends at the NUL if and only if its nesting is at most CJSON_NESTING_LIMIT |
| JsonMinify.Minify | hw/src/cJSON.c:2825-2871 | in place, the write pointer never overtaking the read pointer, the text becomes its minified form and a NUL, and nothing else changes |
| JsonMinify.MinifyString | hw/src/cJSON.c:2803-2823 | a string is copied up to the quote that the code takes for its end |
| JsonMinify.SkipOnelineComment | hw/src/cJSON.c:2776-2787 | goes on behind the line |
| JsonMinify.SkipMultilineComment | hw/src/cJSON.c:2789-2801 | goes on behind the comment, or at the end of an unfinished one |
| JsonMinify.MinifiedTwice | hw/src/cJSON.c:2825-2871 | minifying is idempotent on every text |
| JsonMinify.LiteralCopied | hw/src/cJSON.c:2803-2823 | a literal that does not end in an escaped backslash is copied as it is, whatever follows |
| JsonMinify.LiteralOverrun | hw/src/cJSON.c:2803-2823 | one that does is read beyond its closing quote |
| JsonMinify.GapMinified | hw/src/cJSON.c:2776-2871 | outside of strings, white space, comments of both kinds, comments that the text ends in, and a slash that begins no comment are taken away, exactly up to their end |
| JsonMinify.RemovesSpaceExactly | hw/src/cJSON.c:2803-2871 | for one given text: minifying deletes exactly the white space and the comments between its tokens if and only if, reading lexeme by lexeme, the code is outside of a string at all of them and copies every literal whole; the state is followed through misread literals |
| JsonMinify.LiteralThrough | hw/src/cJSON.c:2803-2823 | from outside of a string the code copies every literal whole, and is inside of a string behind it exactly if it ends in an escaped backslash |
| JsonMinify.WordWritten | hw/src/cJSON.c:2803-2871 | in either state, what is written for a word begins with the word exactly if nothing of it is dropped, and then the rest is written as from the state the word leads to |
| JsonMinify.TokensRemain | hw/src/cJSON.c:2825-2871 | without such a literal all tokens stay, and all white space and all comments between them go |
| JsonMinify.MisreadWitness | hw/src/cJSON.c:2803-2823 | behind the first such literal a space survives |
| JsonMinify.MinifyRemovesSpace | hw/src/cJSON.c:2825-2871 | minifying deletes exactly the insignificant white space of section 2 of RFC 8259 and the comments, however they are placed, if and only if no string literal ends in an escaped backslash |
| JsonMinifyMeaning.TextLexes | hw/src/cJSON.c:2825-2871 | the lexemes of any text are what it is written with, and without the white space they write it without layout |
| JsonMinifyMeaning.MinifyStrips | hw/src/cJSON.c:2825-2871 | minifying a JSON text gives the same text without any layout if and only if the code is in step with it as above |
| JsonMinifyMeaning.StraightIsClean | hw/src/cJSON.c:2803-2823 | it is in step with every text in which no string and no name ends in an escaped backslash |
| JsonMinifyMeaning.MinifyKeepsMeaning | hw/src/cJSON.c:2825-2871 | a text the code is in step with is accepted by the parser after minifying exactly if it is before, with the same tree, whether or not it must be read to its end |
| JsonMinifyMeaning.MeaningLost | hw/src/cJSON.c:2803-2823 | for every string that is written with an escaped backslash at its end, the array of it and `" "` is accepted before and after minifying, with different trees |
| JsonMinifyMeaning.SafeSpellings | hw/src/cJSON.c:2803-2871 | so a spelling keeps the meaning of the array of it and any string that is itself safely written if and only if it does not end in an escaped backslash |
| JsonCompare.Compare | hw/src/cJSON.c:2973-3096 | the same item is equal to itself, and otherwise the comparison computes equality of trees |
| JsonCompare.CompareArrays | hw/src/cJSON.c:3031-3053 | walking both lists at once compares them item by item, and their lengths |
| JsonCompare.CompareMembers | hw/src/cJSON.c:3055-3091 | every member of one object is found, equal, in the other |
| JsonCompare.GetObjectItem | hw/src/cJSON.c:1884-1914 | the first member of that name |
| JsonCompare.FindDenotes | hw/src/cJSON.c:1884-1914 | which is the value the object has for it |
| JsonCompare.IntegersCompareExactly | hw/src/cJSON.c:546-550 | the tolerance of compare_double separates all integers below 2^52 |
| JsonCompare.ToleranceBegins | hw/src/cJSON.c:546-550 | and not those above: 2^52 and the next integer compare equal |
| JsonCompare.DecimalAsReal | hw/src/cJSON.c:3011-3013 | numbers are compared as the real numbers they are, whatever their spelling |
| JsonCompare.EqualMeansSameValue | hw/src/cJSON.c:2973-3096 | two trees with integers below 2^52 compare equal if and only if both denote the same value, with objects read as maps, and neither repeats a name with another value |
| JsonCompare.DistinctMeansConsistent | hw/src/cJSON.c:3055-3091 | trees with distinct names per object are among them |
| JsonCompare.EqualIsSymmetric | hw/src/cJSON.c:2973-3096 | comparing is symmetric on all trees, with repeated names too |
| JsonList.Item.AddItemToArray | hw/src/cJSON.c:1960-2000 | the child sequence gets the item at its end; the links and the cached tail are right, also if there was no cached tail |
| JsonList.Item.DetachItemViaPointer | hw/src/cJSON.c:2200-2234 | the child sequence loses exactly the item, which has no links left; the cached tail is right or absent |
| JsonList.Item.DetachItemFromArray | hw/src/cJSON.c:2236-2244 | the same by position; nothing happens for a position that is none |
| JsonList.Item.InsertItemInArray | hw/src/cJSON.c:2276-2303 | the item stands at the position, or at the end for a position behind it |
| JsonList.Item.ReplaceItemViaPointer | hw/src/cJSON.c:2305-2352 | exactly the one child is replaced |
| JsonList.Item.ReplaceItemInArray | hw/src/cJSON.c:2354-2362 | the same by position |
| JsonList.Item.GetArraySize | hw/src/cJSON.c:1832-1853 | the length of the child sequence |
| JsonList.Item.GetArrayItem | hw/src/cJSON.c:1855-1872 | the child at the position, or null |
| JsonList.Item.CreateIntArray | hw/src/cJSON.c:2553-2586 | a valid list of the numbers without a cached tail |
| JsonList.Item.ChangeAll | hw/src/cJSON.c:1932-2362 | any sequence of edits, with new items and with items detached before, does to the list what it does to the sequence of values; the list stays valid and the items left over stay detached |
| Vlfend.EveryRunIsSafe | hw/atv/atv_vlfend.c:151-262 | in every interleaving: no callback runs on freed data or on the lockp of a call that has returned, nothing is freed twice, no wake-up is lost, and a call of AM_VLFEND_Lock about to return has restored the callback and, if it succeeds, has a status |
| Vlfend.StepKeepsInv | hw/atv/atv_vlfend.c:151-262 | every step of the monitor and of the client keeps the inductive invariant |
| Vlfend.InvMeansSafe | hw/atv/atv_vlfend.c:926-955 | which is enough for safety and for no lost wake-up |
| Vlfend.LockRestores | hw/atv/atv_vlfend.c:965-1034 | over a whole call, cb and user_data are what they were before it, and success means that a callback stored a status that is not 0 during the call |
| Vlfend.SetCallbackSets | hw/atv/atv_vlfend.c:803-844 | over a whole call in any interleaving: when AM_VLFEND_SetCallback has returned, the callback is the one it was given, the old data are freed and the new are in a new live block, or null if memory has run out; only if it was given what was there, nothing may have changed |
| Vlfend.OnlyThatCallback | hw/atv/atv_vlfend.c:151-262 | without a further call, the monitor runs no callback but that one, and with its data |
| Vlfend.SetCallbackIsRun | hw/atv/atv_vlfend.c:180-192 | an event after it, with callbacks enabled and no call in between, makes the monitor run exactly the callback that was set with the data that were stored, and none if none was set |
| Vlfend.DisabledIsQuiet | hw/atv/atv_vlfend.c:188-230 | while callbacks are disabled, none is entered |
| Vlfend.StaleExactly | hw/atv/atv_vlfend.c:165-262 | in any run that has come to the request of a call: it can go on, inside the call, to a success with a status that no event polled since has, if and only if the monitor has polled an event with a status and is in front of setting RUN_CB |
| Vlfend.SuccessIsFresh | hw/atv/atv_vlfend.c:926-1034 | in every run, the status of a successful call is that of an event polled since the request, or of the one the monitor had polled and was about to report then |
| Vlfend.StaleFollows | hw/atv/atv_vlfend.c:926-1034 | from such a request the call succeeds with that status without any other event, with an old callback or none; if callbacks were disabled, another thread enables them while the call waits |
| Vlfend.StaleSuccess | hw/atv/atv_vlfend.c:926-955 | an instance from the start: for every status but 0, a run in which the only event is polled before the first call |
| Vlfend.EventEndsTheWait | hw/atv/atv_vlfend.c:926-955 | one event with a status gets the waiting call out of its second wait |
| DmxFilter.EveryRunIsGood | hw/src/linuxdvbdmx_wrapper.c:83-189 | in every interleaving: used slots have distinct open descriptors or -1, every descriptor is held by the slot it was opened for or was closed by it once, and what a callback gets was read from a descriptor that was opened for the very allocation that was polled |
| DmxFilter.StepKeeps | hw/src/linuxdvbdmx_wrapper.c:83-189 | every critical section keeps the invariant |
| DmxFilter.InvMeansGood | hw/src/linuxdvbdmx_wrapper.c:100-181 | which implies those three properties |
| DmxFilter.DeliversWhatWasSet | hw/src/linuxdvbdmx_wrapper.c:140-178 | in every run, a running callback and its user data are the arguments of the last DMX_SetCallback on the handle before the dispatch, in the allocation that was polled, and the last DMX_StartFilter or DMX_StopFilter that took effect had started the filter; without such calls nothing is delivered |
| DmxFilter.DispatchRuns | hw/src/linuxdvbdmx_wrapper.c:140-178 | for the next polled entry the callback is run exactly if there are data for a filter that is started, not marked and has a callback; the others stay for later, in order |
| DmxFilter.AllocateGives | hw/src/linuxdvbdmx_wrapper.c:229-281 | the first unused slot, with its own open descriptor, not started and without a callback |
| DmxFilter.ScanFrees | hw/src/linuxdvbdmx_wrapper.c:100-120 | a slot is in use behind the scan exactly if it was and was not marked; a freed one is not |
| DmxFilter.ReopenMoves | hw/src/linuxdvbdmx_wrapper.c:283-356 | a filter is moved only if it is on another demux, and only its demux and descriptor change; its old descriptor is closed |
| DmxFilter.LateSince | hw/src/linuxdvbdmx_wrapper.c:160-178 | in every run, a callback that runs for a slot marked by DMX_FreeFilter was entered before that call and has not returned since |
| DmxFilter.FreeDoesNotWait | hw/src/linuxdvbdmx_wrapper.c:433-456 | and freeing a slot while its callback runs always leads there: the callback goes on with the user data it had |
| DmxFilter.ReopenKeeps | hw/src/linuxdvbdmx_wrapper.c:283-356 | moving a filter to another demux closes one descriptor and opens one, or leaves -1 |
| DmxFilter.PollSetIsUsed | hw/src/linuxdvbdmx_wrapper.c:100-140 | the poll set has exactly the used slots, with the allocations they are in use for |
| DmxFilter.Demux.AllocateFilter | hw/src/linuxdvbdmx_wrapper.c:229-281 | the first unused slot, if there is one and open succeeds |
| DmxFilter.Demux.GetFilter | hw/src/linuxdvbdmx_wrapper.c:191-205 | a handle is good exactly if its slot exists and is used |
| DmxFilter.Demux.FreeFilter | hw/src/linuxdvbdmx_wrapper.c:433-456 | only marks the slot; the data thread frees it |
| DmxFilter.Demux.Reopen | hw/src/linuxdvbdmx_wrapper.c:283-356 | closes and opens as the step says; the result is FALSE exactly if opening or an ioctl fails, so it is TRUE for a slot that is not used |
| DmxFilter.Demux.SetEnable | hw/src/linuxdvbdmx_wrapper.c:458-522 | changes the flag only if the ioctl succeeds |
| DmxFilter.Demux.SetCallback | hw/src/linuxdvbdmx_wrapper.c:559-587 | changes callback and data of one slot |
| DmxFilter.Demux.ScanFilters | hw/src/linuxdvbdmx_wrapper.c:100-140 | the loop over the table frees what is marked and lists the rest |
| DmxFilter.Demux.DispatchNext | hw/src/linuxdvbdmx_wrapper.c:140-178 | for the next polled entry, a callback follows exactly if the slot is enabled, used and not to be freed, data came and a callback is set; it is the slot's callback, with the slot's data |
| Pmt.CaBodyFields | hw/src/ca_glue_amlmp.c:1077-1082 | the shifts and masks take a CA descriptor apart as section 2.6.16 of ISO/IEC 13818-1 puts it together |
| Pmt.SaysOneThing | hw/src/ca_glue_amlmp.c:1077-1082 | and its bytes can be read in no other way |
| Pmt.LoopRead | hw/src/ca_glue_amlmp.c:1217-1245 | a descriptor loop is read exactly to its end, and gives its CA descriptors of at least four bytes, all of them, in order, with private data |
| Pmt.ModeRead | hw/src/ca_glue_amlmp.c:1229-1235 | the scrambling mode is that of the last scrambling descriptor |
| Pmt.StreamsRead | hw/src/ca_glue_amlmp.c:1262-1319 | one entry for each stream, in order, with its PID and its own CA descriptors |
| Pmt.SectionRead | hw/src/ca_glue_amlmp.c:1176-1319 | every well-formed section, whatever follows it, is read exactly up to its CRC, and gives program number, CA descriptors, streams and scrambling mode |
| Pmt.CarriesOneThing | hw/src/ca_glue_amlmp.c:1217-1245 | what the CA descriptors of a loop say is unique, so the result is determined |
| Pmt.SectionReach | hw/src/ca_glue_amlmp.c:1176-1319 | however malformed a section is, and whatever stands behind it, reading it ends within 4363 bytes |
| Pmt.BufferDecides | hw/src/ca_glue_amlmp.c:1176-1319 | a section that is read inside its own bytes gives the same whatever stands behind it |
| PmtReader.ParseCaDescriptor | hw/src/ca_glue_amlmp.c:1054-1174 | the array is regrown with all old entries in front and the new one last; a short descriptor changes nothing |
| PmtReader.ReadProgramLoop | hw/src/ca_glue_amlmp.c:1214-1245 | the loop over the program's descriptors computes the reading function |
| PmtReader.ReadStreamLoop | hw/src/ca_glue_amlmp.c:1266-1293 | the loop over a stream's descriptors, which also ends with the section |
| PmtReader.CaList.Append | hw/src/ca_glue_amlmp.c:1296-1317 | through the tail pointer, one entry is added behind all others |
| PmtReader.GetPmtDescArrayList | hw/src/ca_glue_amlmp.c:1176-1345 | for all data, of any length and malformed too, with whatever stands in memory behind it, the new list has exactly what the reading function gives |
| CaSessions.FirstSupported | hw/src/ca_glue_amlmp.c:1504-1513 | the ECM PID of the first descriptor whose system is supported |
| CaSessions.ReportKeepsLists | hw/src/ca_glue_amlmp.c:1461-1535 | after any PMT report no ECM PID has two session nodes, every listed one has one, nodes are only added, behind the others, and a handle with CA descriptors has a node |
| CaSessions.ReportLists | hw/src/ca_glue_amlmp.c:1388-1452 | with a supported descriptor of the program every stream is listed once, in order, under its ECM PID; otherwise exactly the streams with a supported descriptor are, in order, under the first of theirs |
| CaSessions.SectionReported | hw/src/ca_glue_amlmp.c:1461-1535 | the same from the bytes of any well-formed section |
| CaSessions.ReportFills | hw/src/ca_glue_amlmp.c:1388-1535 | by what the section says: the list gets an entry exactly if the program has a supported descriptor and a stream, or has none and a stream has one; there is a node exactly if there was one or anything supported |
| CaSessions.RecordingReadsNull | hw/src/ca_glue_amlmp.c:2081-2164 | after a report to any handle, starting a recording reads a null pointer if and only if no session is open and the program has a supported descriptor and no streams, or nothing in it is supported and there was a node before |
| CaSessions.NoStreams | hw/src/ca_glue_amlmp.c:2135 | it does for a new handle that is told the bytes of any section with a supported descriptor and no streams |
| CaSessions.ScrambledThenClear | hw/src/ca_glue_amlmp.c:2135 | it does not for a new handle after any report that lists a stream, and it does after a second report without a supported descriptor |
| CaSessions.SessionOfStream | hw/src/ca_glue_amlmp.c:309-338 | what get_cas_session finds for a listed stream: the open session if its ECM PID is that of the first node, and none otherwise |
| CaSessions.LiveStep | hw/src/ca_glue_amlmp.c:834-997 | starting and stopping a live service, on every error path, opens or closes only the handle's own session, and is_descrambling holds if and only if the first node holds a session |
| CaSessions.RecorderStep | hw/src/ca_glue_amlmp.c:2081-2262 | the same for starting and stopping a recording |
| CaSessions.AcquireGives | hw/src/ca_glue_amlmp.c:709-771 | a new handle, without a session, exactly if one of the systems is supported |
| CaSessions.StartOpens | hw/src/ca_glue_amlmp.c:834-949 | starting a live service leaves the handle with the opened session exactly if nothing fails; otherwise a session that was opened is closed again and nothing else is; the listed streams are marked once it comes to starting |
| CaSessions.StopCloses | hw/src/ca_glue_amlmp.c:955-997 | stopping a descrambled service that the vendor accepts closes exactly its session; otherwise nothing happens |
| CaSessions.RecordingOpens | hw/src/ca_glue_amlmp.c:2081-2164 | starting a recording opens a session for the handle exactly if it has a node, no session, and the library opens one |
| CaSessions.RecordingCloses | hw/src/ca_glue_amlmp.c:2171-2262 | stopping it closes exactly the session the handle holds |
| CaSessions.ReleaseCloses | hw/src/ca_glue_amlmp.c:778-827 | and so does releasing the handle |
| CaSessions.StepKeeps | hw/src/ca_glue_amlmp.c:709-997 | every call on any of many handles keeps the invariant |
| CaSessions.EveryRunConserves | hw/src/ca_glue_amlmp.c:834-997 | in every run, with every answer of the vendor library, each opened session has been closed once and is held by no handle, or is held by exactly one and was not closed; is_descrambling of a live handle says whether it holds one, across PMT updates |
| CaSessions.NothingLeaks | hw/src/ca_glue_amlmp.c:778-827 | when all handles are released, every session has been closed exactly once |
| CaHandle.SectionIsTold | hw/src/ca_glue_amlmp.c:890-935 | from the bytes of a section to what the library is told on a new handle: program number, scrambling mode, the PIDs of the listed streams in order, and the ECM PID of the program's first supported descriptor, or else of the first listed stream |
| CaHandle.Descrambler.AddSessPid | hw/src/ca_glue_amlmp.c:253-286 | the node is appended through the tail pointer if the PID is not there yet; the links stay right |
| CaHandle.Descrambler.CollectEsCaInfo | hw/src/ca_glue_amlmp.c:1388-1452 | the two linked lists become what collecting the streams gives |
| CaHandle.Descrambler.ReportPmt | hw/src/ca_glue_amlmp.c:1461-1535 | the handle, after a report of any data, is what the report step says; data of at most three bytes is ignored |
| CaHandle.Descrambler.GetCasSession | hw/src/ca_glue_amlmp.c:309-338 | both searches together |
| CaHandle.AcquireDescrambler | hw/src/ca_glue_amlmp.c:709-771 | a new handle if and only if one of the systems is supported |
| CaHandle.Descrambler.ServiceStart | hw/src/ca_glue_amlmp.c:834-949 | handle and vendor library are what the start step says; descrambling is told all listed streams, in order, and the ECM PID of the first node |
| CaHandle.Descrambler.ServiceStop | hw/src/ca_glue_amlmp.c:955-997 | the stop step |
| CaHandle.Descrambler.RecordStart | hw/src/ca_glue_amlmp.c:2081-2164 | the recording step, for every handle; says exactly when the code reads a null pointer. Recording is told all listed streams and the ECM PID of the first of them, and a session that cannot be started stays open in the handle |
| CaHandle.Descrambler.RecordStop | hw/src/ca_glue_amlmp.c:2171-2207 | the recorder's stop step |
| CaHandle.Descrambler.NotifyRecordingStatus | hw/src/ca_glue_amlmp.c:2227-2262 | the same when recording stops, and nothing when it starts |
| CaHandle.Descrambler.Release | hw/src/ca_glue_amlmp.c:778-827 | closes the session the handle holds, if any |
| Base64Key.DecodeKey | hw/src/stbhwci.c:447-502 | for a run of symbols whose length is a multiple of four, a buffer of the computed length that starts with the decoded bytes; no key and length 0 otherwise |
| Base64Key.LengthCovers | hw/src/stbhwci.c:458-466 | for every run of symbols, well formed or not, the loop stores at most as many bytes as were computed, and exactly as many if and only if the padding is in its place |
| Base64Key.GroupIsWord | hw/src/stbhwci.c:473-488 | for any four symbols, padding in any place: the 24 bits of four symbols are three bytes, the 18 of three are two, the 12 of two are one, bits left over are lost, and padding in the second place sets one bit of the first byte |
| Base64Key.GroupByGroup | hw/src/stbhwci.c:473-488 | and a run is decoded group by group |
| Base64Key.DecodedEncoded | hw/src/stbhwci.c:473-488 | decoding inverts the encoding of section 4 of RFC 4648 |
| Base64Key.KeyRoundTrip | hw/src/stbhwci.c:447-502 | for every non-empty key, the encoded key followed by anything that is no symbol gives the key and its length |

## Left out

- Floating point: numbers that are not integers are parsed to an exact decimal, never rounded, and only integers below
  10^15 in magnitude are printed; NaN, infinities, the locale's decimal point and valueint saturation are not modelled.
- JsonNumber.StrtodReads: strtod is a library function; the model reads decimal text only, no hexadecimal and no
  INF or NAN, which the parser never hands to it.
- JsonText.DocumentParsed: strings with malformed digits behind \u or with a NUL byte are not among its texts;
  JsonLenient.AcceptedIsLenient covers them, but does not say which of the former are accepted.
- JsonGrammar.ParseText: the error position is stated exactly for texts that begin with no value or go on behind one;
  inside a value it is the position the code stops at.
- Bit operations: masks, shifts and unions of disjoint bits are written with division, remainder and sum.
- Allocation: it always succeeds; hooks, freeing and cJSON_Delete are not modelled.
- JsonParser.ParseBuffer.ParseArray, JsonParser.ParseBuffer.ParseObject: children are collected in a sequence; the
  linked form of a child list is the subject of JsonList.
- Branches of the parser that no input reaches, such as a null item or a text that ends before its NUL.
- References, constant keys, cJSON_Raw and strings that are null pointers.
- cJSON_ParseWithLength on a buffer without a NUL, and case-insensitive lookup and comparison.
- cJSON_Duplicate, the editing of objects by name, and array constructors other than cJSON_CreateIntArray.
- JsonCompare.Compare: that two pointers are the same item is an argument.
- Vlfend, DmxFilter: concurrency is modelled on values, as steps between which any other thread may run; the mutex and
  the condition variable are part of the state, fairness is not.
- AM_VLFEND_CloseEx, AM_VLFEND_UpdateCallbackData and several clients in AM_VLFEND_Lock at once, which the protocol is
  not designed for.
- DMX_Close, DMX_SetPesFilter, DMX_SetBufferSize and the filter parameters; filter handles are not negative.
- DmxFilter.Demux.DispatchNext: the call of the callback itself is a step of the run.
- Pmt.SectionRead: the scrambling mode is stated for sections in which no scrambling descriptor is empty; for an empty
  one the code takes the byte behind it.
- PmtReader.GetPmtDescArrayList, CaHandle.Descrambler.ReportPmt: the code does not know where its buffer ends, so the
  model has the 4363 bytes of memory from its start on, which are all it can reach; that some of them may not be mapped
  is not modelled, nor is a null pointer.
- CaSessions.EveryRunConserves: closing a session is taken to succeed; a handle is used live or
  for recording, not both; the vendor's sessions are numbered.
- CaHandle.Descrambler.RecordStart: what happens after a null pointer has been read; the model stores the session, as
  the code has done by then, and starts no recording.
- CaSessions.StepKeeps: each call is one step. STB_CAPVRRecordStart, STB_CAPVRRecordStop and
  STB_CANotifyRecordingStatus do not take g_ca_mutex (hw/src/ca_glue_amlmp.c:2081-2262), and what they do while another
  call is halfway is not modelled.
- CaHandle.Descrambler.CollectEsCaInfo: the entry the code allocates for a stream that it then does not list.
- The time-shift flag, which only changes what the vendor library is told, reports of whole sections to it, EMM PIDs,
  playback sessions, and the capacity of the vendor's stream_pids array, whose declaration is not in the repository.
- Base64Key.DecodeKey: the bytes of the buffer behind the decoded ones, which are not initialised, are left open.
- hw/src/fsm_base.c, hw/src/emu_*.c, hw/hal/aml_frontend_api.c, hw/atv/atv_vdin_tvafe.c, hw/atv/linux_v4l2.c and
  hw/src/stbhwcfg.c: dispatch tables, attribute copying and ioctl wrappers are not modelled.
