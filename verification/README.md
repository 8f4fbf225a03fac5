# Dafny model of xquic's JSON codec, WebTransport demos and hq request

This project models four pieces of the xquic repository and proves what they promise, for all inputs and all runs.

**The JSON library** (`moq/cjson/cJSON.c`). `Json` is the tree an item stands for, `JsonText` the text it prints as.
`JsonNumber`, `JsonString` and `JsonParse` say what the parser computes from a buffer, an offset and the number of containers that may still be opened.
`JsonLiteral` and `JsonSyntax` are the texts of the parser's dialect with their meaning, UTF-8 as in section 3 of RFC 3629.
`JsonStrict` picks from them the JSON texts of RFC 8259, by a grammar of its own: the four blanks of section 2, the numbers of
section 6, the strings of section 7. `JsonRoundTrip`, `JsonAccepts` and `JsonExact` tie text, parser and grammar together.
`JsonParser`, `ItemParser`, `JsonPrinter` and `JsonMinify` are the code as it runs: a cursor with a depth counter that builds
doubly linked items, a growing print buffer that walks them and finds its offset by looking for the NUL, and two cursors over
one array.
`ItemList` and `ItemTree` are the linked items and the values they stand for, `JsonCompare` is `cJSON_Compare`, and
`JsonIdentities` joins the calls.

**The echo protocol** (`demo/xqc_wt_echo_server.c`, `demo/xqc_wt_echo_client.c`). `EchoServer` and `EchoClient` are the two
endpoints, `EchoProtocol` both of them over two pipes and a datagram network, `EchoCompletes` the run in which the client passes.

**The file transfer** (`demo/xqc_webtrans_interop.c`). `InteropPath` and `InteropHeader` are the path check and the
incremental GET/PUSH parser, `InteropSender` the resumable sender, `InteropRequester` and `InteropContext` the receiving side,
`InteropStages` one request and one answer, `InteropTransfer` and `InteropCompletes` both endpoints together over streams, `InteropDatagrams` the datagram ring,
`InteropDatagramTransfer` both endpoints together over datagrams.

**The hq request** (`demo/xqc_hq_request.c`). `HqRequest` and `HqRecord` are the reader and writer, `HqProtocol` both ends.

`Bytes` and `Pipes` hold what they share. A pipe is one direction of a stream under the contract of
`include/xquic/xqc_webtransport.h`: a send accepts a number of bytes or returns an error, a read callback takes a piece whole
or not at all, a FIN takes effect when the buffer of its call was accepted whole, and a read of no bytes may carry it.

Where the source keeps state, a class keeps it, and each method is proved equal to a function of the old state; runs, invariants
and round trips are then proved of those functions. What comes from outside is a parameter: the answers of the transport, of
files and of the clock, and the content of fresh memory. A list of answers that ends stands for "would block" (for file writes:
for an error), so that every list is allowed.

Things the code does that its documentation does not say, or says otherwise:

- A preallocated print succeeds exactly if the buffer holds the text and two more bytes; `moq/cjson/cJSON.h:162` advises five.
- Minifying the formatted text gives the unformatted text exactly for the trees `JsonMinifyPrint.Mild` describes: a string that
  ends in a backslash does harm unless nothing but closing brackets of arrays follows it.
- An item with a `next` link of its own, appended to a non-empty list, breaks the list.
- Texts that are no JSON texts are accepted: with a `\u` that lacks four hexadecimal digits (read as U+0000, which ends the
  string), with control bytes in strings, with other blanks than the four of RFC 8259, and with numbers such as `01` that only the
  C library takes; a byte order mark in front is skipped. Apart from these, of the texts parsed to their end exactly the JSON
  texts are accepted that nest at most 1000 deep, with numbers of at most 63 bytes and without half surrogate pairs.
- More than 32 files cannot be fetched over unidirectional streams, nor more than 64 over bidirectional ones, though the request
  list takes 256: each file takes two, or one, of the 64 stream records at either endpoint, and records are freed with the session.
- Over datagrams, a responder that is the client reports a failure although the requester has all its files, if a repeated
  request left a reply in its queue when the session closed.
- The hq reader hands out the first word of a resource as if it were all of it: "a" for "a b", and at most 255 bytes.

## Model

| member | source | states |
|---|---|---|
| `JsonRoundTrip.RoundTrip` | moq/cjson/cJSON.c:1325-1843 | for every tree of 32-bit integers and NUL-free strings, formatted or not, with anything behind it: the printed text parses back to the same tree, with order and repeated keys kept, if it nests at most 1000 deep, and does not parse if it nests deeper |
| `JsonRoundTrip.RoundTripTerminated` | moq/cjson/cJSON.c:1104-1181 | the same, both ways, when a terminating NUL is required |
| `JsonRoundTrip.PrintInjective` | moq/cjson/cJSON.c:1380-1451 | two trees of any depth with the same text, in any two formats, are the same tree |
| `JsonRoundTrip.ParsedHeight` | moq/cjson/cJSON.c:1325-1377 | whatever parses from any buffer opens no more containers than the limit leaves, and parses the same under any higher limit |
| `JsonRoundTrip.DocOfText` | moq/cjson/cJSON.c:1380-1843 | the printed text is the text of a document, which the next row says is a JSON text |
| `JsonRoundTrip.DocOfOk` | moq/cjson/cJSON.c:1380-1843 | that document is a JSON text of RFC 8259 and means the printed tree |
| `JsonSyntax.ValueParses` | moq/cjson/cJSON.c:1325-1377 | every text of the parser's dialect (any blanks up to byte 32, any byte in strings, numbers of at most 63 bytes that the C library reads whole) nested no deeper than the limit leaves parses to its meaning and stops right behind it |
| `JsonAccepts.AcceptedIsDialect` | moq/cjson/cJSON.c:1325-1377 | conversely, whatever the parser accepts, from any buffer, is a text of the dialect and gets its meaning, if and only if every \u in it is followed by four hexadecimal digits |
| `JsonAccepts.NoHexAccepted` | moq/cjson/cJSON.c:623-656 | a quoted \uGGGG is accepted as the empty string and is not of the dialect |
| `JsonAccepts.StrtodCut` | moq/cjson/cJSON.c:307-381 | the text the number parser consumed reads as the same number by itself |
| `JsonStrict.RfcParses` | moq/cjson/cJSON.c:1325-1377 | every JSON text of RFC 8259 with numbers of at most 63 bytes and without half surrogate pairs, nested no deeper than the limit leaves, parses to its value |
| `JsonStrict.RfcNumberReads` | moq/cjson/cJSON.c:307-381 | every number of section 6 of RFC 8259 is read whole, and to the value its parts name |
| `JsonExact.AcceptedIsJson` | moq/cjson/cJSON.c:1325-1377 | whatever the parser accepts, from any buffer, is a JSON text of RFC 8259 and gets its value, if and only if its \u have four hexadecimal digits, no string holds a control byte, and its blanks and numbers are those of the RFC |
| `JsonExact.TextExact` | moq/cjson/cJSON.c:1104-1181 | a C string parsed to its end, behind a byte order mark or not: it gives a value and its bytes meet those conditions, if and only if it is a JSON text of RFC 8259 with that value, at most 1000 deep and with numbers of at most 63 bytes |
| `JsonExact.DocOver` | moq/cjson/cJSON.c:1325-1377 | in front of any byte, the condition on the bytes of a document holds if and only if the document is a JSON text |
| `JsonExact.RawNewlineAccepted` | moq/cjson/cJSON.c:781-893 | a quoted newline is accepted and is no JSON text |
| `JsonExact.OddBlanksAccepted` | moq/cjson/cJSON.c:1047-1070 | brackets around a NUL and a vertical tab are accepted as the empty array and are no JSON text |
| `JsonExact.LeadingZeroAccepted` | moq/cjson/cJSON.c:307-381 | 01 is accepted as 1 and is no JSON text |
| `JsonSyntax.ArrayParses` | moq/cjson/cJSON.c:1454-1549 | the same for arrays |
| `JsonSyntax.ObjectParses` | moq/cjson/cJSON.c:1614-1729 | the same for objects |
| `JsonSyntax.ElemsParse` | moq/cjson/cJSON.c:1486-1521 | the element loop reads any list of elements, from the step back to the byte that is no comma |
| `JsonSyntax.MembersParse` | moq/cjson/cJSON.c:1644-1702 | the member loop reads any list of members |
| `JsonSyntax.StringParses` | moq/cjson/cJSON.c:781-908 | a quoted literal parses to the C string it names |
| `JsonSyntax.NumberParses` | moq/cjson/cJSON.c:307-381 | a number of at most 63 bytes that the C library reads whole parses to its value |
| `JsonParse.ParseValue` | moq/cjson/cJSON.c:1325-1377 | a successful parse strictly advances the offset and never passes the length |
| `JsonParse.ParseElems` | moq/cjson/cJSON.c:1486-1521 | the same for the element loop, despite its step back; it reads at least one element |
| `JsonParse.ParseMembers` | moq/cjson/cJSON.c:1644-1702 | the same for the member loop |
| `JsonParse.SkipWhitespace` | moq/cjson/cJSON.c:1047-1070 | never moves back and stays inside, with the step back at the end |
| `JsonString.DecodeFits` | moq/cjson/cJSON.c:781-893 | for every input that passes the scan, in step with it or not, the decoded bytes are at most the content less the counted escapes, and the cursor ends at most one behind the closing quote |
| `JsonString.Jump` | moq/cjson/cJSON.c:781-893 | how far one decoded piece can run ahead of the scan |
| `JsonString.PieceFits` | moq/cjson/cJSON.c:623-778 | one escape never decodes to more bytes than it takes, less one if it is counted |
| `JsonLiteral.DecodeLiteral` | moq/cjson/cJSON.c:781-893 | every well-formed literal of raw bytes, short escapes, \uXXXX and surrogate pairs decodes to the UTF-8 of what it names |
| `JsonLiteral.ScanLiteral` | moq/cjson/cJSON.c:794-816 | the first pass finds the closing quote of such a literal and counts one escape for each short escape and \uXXXX and two for each surrogate pair |
| `JsonLiteral.EscapeFaithful` | moq/cjson/cJSON.c:911-1030 | the printed form of any byte string is such a literal and names that string |
| `JsonLiteral.Utf8Faithful` | moq/cjson/cJSON.c:723-770 | the encoder's bytes decode to the code point, for all code points to U+10FFFF |
| `JsonNumber.IntTextReads` | moq/cjson/cJSON.c:307-381 | the decimal text of a 32-bit integer is taken whole and read as that integer |
| `JsonParser.ParseHex4` | moq/cjson/cJSON.c:623-656 | four hex digits, or 0 if one is not |
| `JsonParser.EncodeUtf8` | moq/cjson/cJSON.c:723-770 | the shifting loop writes the UTF-8 encoding |
| `JsonParser.Utf16LiteralToUtf8` | moq/cjson/cJSON.c:660-778 | one \u escape or surrogate pair, with all its ways to fail |
| `JsonParser.ScanString` | moq/cjson/cJSON.c:794-816 | the first pass |
| `JsonParser.DecodeString` | moq/cjson/cJSON.c:827-893 | the second pass stays inside the buffer the first pass sized, and decodes |
| `JsonParser.CopyNumber` | moq/cjson/cJSON.c:320-353 | copies the number bytes into the fixed buffer |
| `JsonParser.ParseBuffer.SkipBlank` | moq/cjson/cJSON.c:1047-1070 | moves the cursor as `SkipWhitespace` says |
| `JsonParser.ParseBuffer.ReadNumber` | moq/cjson/cJSON.c:307-381 | reads a number at the cursor |
| `JsonParser.ParseBuffer.ReadString` | moq/cjson/cJSON.c:781-908 | reads a string at the cursor, within a buffer of the estimated size |
| `ItemParser.ReadValue` | moq/cjson/cJSON.c:1325-1377 | on success the item heads a tree whose lists are linked at every level, that shares nothing, whose new items are fresh and whose value is the parsed one; depth is restored; on failure the offset is where it gave up |
| `ItemParser.ReadLeaf` | moq/cjson/cJSON.c:1325-1377 | the cases without children |
| `ItemParser.ReadArray` | moq/cjson/cJSON.c:1454-1549 | the same for arrays |
| `ItemParser.ReadElems` | moq/cjson/cJSON.c:1486-1521 | the loop links one item for each element |
| `ItemParser.NextElem` | moq/cjson/cJSON.c:1490-1518 | one turn: the new item hangs behind the last, then gets its value |
| `ItemParser.ReadObject` | moq/cjson/cJSON.c:1614-1729 | the same for objects |
| `ItemParser.ReadMembers` | moq/cjson/cJSON.c:1644-1702 | the loop links one item for each member |
| `ItemParser.NextMember` | moq/cjson/cJSON.c:1648-1701 | one turn, with the name |
| `ItemParser.ReadName` | moq/cjson/cJSON.c:1670-1695 | the name moves from the value text to the name, and the colon follows |
| `ItemParser.Success` | moq/cjson/cJSON.c:1528-1540 | the head gets its link to the tail and the item its children |
| `ItemParser.ParseWithLengthOpts` | moq/cjson/cJSON.c:1104-1181 | the whole parse: BOM, blanks, value, optional NUL, end or error position, and the fresh linked tree |
| `JsonIdentities.PrintThenParse` | moq/cjson/cJSON.c:1264-1272 | whenever printing a tree of items succeeds, parsing the printed bytes builds a fresh tree of items with the same value, if and only if the tree nests at most 1000 deep; otherwise it gives nothing |
| `JsonIdentities.DuplicateThenCompare` | moq/cjson/cJSON.c:2729-2810 | a recursive copy is fresh, has the source's value, and compares equal to it exactly if the source looks up its own members |
| `JsonPrinter.PrintBuffer.Ensure` | moq/cjson/cJSON.c:447-530 | room for so many bytes behind the offset exactly if the limit allows; growth keeps all earlier bytes |
| `JsonPrinter.PrintBuffer.UpdateOffset` | moq/cjson/cJSON.c:533-543 | lands on the NUL behind the text |
| `JsonPrinter.PrintBuffer.PrintNumber` | moq/cjson/cJSON.c:553-620 | shows the decimal text of a 32-bit integer, exactly if it fits |
| `JsonPrinter.PrintBuffer.PrintString` | moq/cjson/cJSON.c:911-1030 | shows the escaped text on both paths, exactly if it fits |
| `JsonPrinter.PrintBuffer.PrintValue` | moq/cjson/cJSON.c:1380-1451 | for a tree of linked items: succeeds exactly if offset, text and two bytes fit; then the buffer holds what it held, the rendered text and a NUL |
| `JsonPrinter.PrintBuffer.PrintArray` | moq/cjson/cJSON.c:1552-1611 | the same for arrays |
| `JsonPrinter.PrintBuffer.PrintElems` | moq/cjson/cJSON.c:1575-1599 | the same for the walk along the elements |
| `JsonPrinter.PrintBuffer.PrintObject` | moq/cjson/cJSON.c:1732-1843 | the same for objects |
| `JsonPrinter.PrintBuffer.PrintMembers` | moq/cjson/cJSON.c:1759-1823 | the same for the walk along the members |
| `JsonPrinter.PrintBuffer.PrintMember` | moq/cjson/cJSON.c:1759-1823 | the same for one turn of it |
| `JsonPrinter.Print` | moq/cjson/cJSON.c:1196-1261 | succeeds exactly if the text and two bytes fit an int, and returns the text and its NUL in an array of just that size |
| `JsonPrinter.PrintBuffered` | moq/cjson/cJSON.c:1274-1303 | the same text for any non-negative starting size |
| `JsonPrinter.PrintPreallocated` | moq/cjson/cJSON.c:1305-1322 | succeeds exactly if the buffer holds the text and two more bytes, and then leaves the growing printer's text in it |
| `JsonPrinter.RenderNoNul` | moq/cjson/cJSON.c:1380-1843 | no rendered text holds a NUL |
| `JsonMinifyPrint.MinifyFormatted` | moq/cjson/cJSON.c:2861-2907 | minifying the formatted text gives the unformatted text if and only if the tree is `Mild` |
| `JsonMinifyPrint.CleanIsMild` | moq/cjson/cJSON.c:2839-2859 | a tree in which no string or key ends in a backslash is |
| `JsonMinifyPrint.MinifyMisses` | moq/cjson/cJSON.c:2853-2857 | an array of the string `\` and null is not: its two texts minify apart |
| `JsonMinify.Minify` | moq/cjson/cJSON.c:2861-2907 | in place, the write cursor never ahead of the read cursor, the array ends up holding the minified text and a NUL |
| `JsonMinify.MinifyString` | moq/cjson/cJSON.c:2839-2859 | a string is copied down whole, a backslash hiding the quote behind it |
| `JsonMinify.MinifyContent` | moq/cjson/cJSON.c:2839-2859 | the loop of that |
| `JsonMinify.SkipLine` | moq/cjson/cJSON.c:2812-2823 | a line comment ends behind its newline |
| `JsonMinify.SkipBlock` | moq/cjson/cJSON.c:2825-2837 | a block comment ends behind its closing mark |
| `JsonMinify.SkipSlash` | moq/cjson/cJSON.c:2881-2892 | a slash starts a comment or is dropped |
| `JsonCompare.CompareDecides` | moq/cjson/cJSON.c:3009-3132 | on all integer trees, comparing says yes if and only if both look up their own members and both mean the same, with objects read as first-match maps |
| `JsonCompare.CompareIsMapEquality` | moq/cjson/cJSON.c:3091-3127 | with distinct keys, if and only if the values are equal with objects as unordered maps |
| `JsonCompare.CompareReflexive` | moq/cjson/cJSON.c:3091-3127 | a tree equals a copy of itself if and only if every repeated key has equal values |
| `JsonCompare.CompareMissesCopy` | moq/cjson/cJSON.c:3098 | an object with one key twice and two values does not equal a copy of itself |
| `JsonCompare.CompareSymmetric` | moq/cjson/cJSON.c:3009-3132 | symmetric on all trees |
| `JsonCompare.CompareTransitive` | moq/cjson/cJSON.c:3009-3132 | transitive on integer trees |
| `JsonCompare.CompareInts` | moq/cjson/cJSON.c:546-550 | the relative tolerance tells any two 32-bit integers apart |
| `JsonCompare.GetObjectItem` | moq/cjson/cJSON.c:1898-1928 | the first child of that name, or none |
| `JsonCompare.CompareItems` | moq/cjson/cJSON.c:3009-3132 | null equals nothing, an item equals itself, and two trees of linked items are equal as the relation of these lemmas says, if they have no item in common or one of them looks up its own members |
| `JsonCompare.ShapeUnique` | moq/cjson/cJSON.c:3009-3132 | an item heads one tree only, whichever way it is reached |
| `JsonCompare.CompareLists` | moq/cjson/cJSON.c:3067-3089 | the walk along two arrays |
| `JsonCompare.ComparePass` | moq/cjson/cJSON.c:3095-3108 | one of the two passes over the members |
| `ItemList.GetArrayItem` | moq/cjson/cJSON.c:1869-1886 | the item at that index, or none |
| `ItemList.GetArraySize` | moq/cjson/cJSON.c:1846-1867 | the number of children, converted to int |
| `ItemList.AddItemToArray` | moq/cjson/cJSON.c:1974-2005 | appends, and keeps the list if and only if it was empty or the item had no next link; refuses null and self |
| `ItemList.AppendDraws` | moq/cjson/cJSON.c:1997-2001 | a list of one item to which an item with a next link is appended, and which then has that next item too |
| `ItemList.DetachItemViaPointer` | moq/cjson/cJSON.c:2205-2239 | takes the item out of the sequence, clears its links and returns it; null in, null out |
| `ItemList.InsertItemInArray` | moq/cjson/cJSON.c:2281-2313 | inserts before the index, or appends behind the end; refuses null, a negative index and, behind the end, self |
| `ItemList.ReplaceItemViaPointer` | moq/cjson/cJSON.c:2315-2362 | puts the replacement in the item's place and clears the item's links |
| `ItemList.DetachAndReinsert` | moq/cjson/cJSON.c:2205-2313 | detaching an item and inserting it at its index restores the list |
| `ItemTree.Duplicate` | moq/cjson/cJSON.c:2729-2810 | a fresh tree with no shared item, linked at every level, with the source's content; without recursion only the item; of null, null |
| `ItemTree.DuplicateChildren` | moq/cjson/cJSON.c:2772-2799 | the loop of that |
| `ItemTree.DuplicateChild` | moq/cjson/cJSON.c:2775-2797 | one turn of it |
| `ItemTree.CreateNumber` | moq/cjson/cJSON.c:2452-2476 | a lone number item, with the number saturated to 32 bits beside it |
| `ItemTree.CreateIntArray` | moq/cjson/cJSON.c:2568-2606 | an array item whose children hold the numbers in order, properly linked; of a null array or a negative count, null |
| `ItemTree.LeavesValue` | moq/cjson/cJSON.c:2568-2606 | such an array stands for the list of those numbers |
| `EchoProtocol.EchoSafety` | demo/xqc_wt_echo_server.c:164-243 | in every run of client and server, for any segmentation, short write, blocked send and callback order: accepted = delivered, in flight, pending and in flight again, each byte once and in order; the FIN comes back at most once, behind the whole payload; buffers stay bounded; no mismatch or short echo is ever reported |
| `EchoProtocol.InvStep` | demo/xqc_wt_echo_client.c:110-400 | every action keeps the invariant of both endpoints and both channels |
| `EchoProtocol.ClientReadsInv` | demo/xqc_wt_echo_client.c:327-380 | so does every delivery to the client; its mismatch and short-echo branches are not reached |
| `EchoProtocol.ServerReadsInv` | demo/xqc_wt_echo_server.c:218-243 | so does every delivery to the server, taken or pushed back |
| `EchoProtocol.FlushInv` | demo/xqc_wt_echo_server.c:164-195 | so does every flush, with its short writes |
| `EchoProtocol.ClientDatagramInv` | demo/xqc_wt_echo_client.c:382-400 | so does every datagram, lost, repeated or late |
| `EchoProtocol.DatagramInv` | demo/xqc_wt_echo_server.c:292-346 | so does the server's echoing and retrying of datagrams |
| `EchoProtocol.FinAfterPayload` | demo/xqc_wt_echo_server.c:183-189 | when the server's FIN is out, it has echoed the payload |
| `EchoCompletes.EchoCanPass` | demo/xqc_wt_echo_client.c:110-285 | for every payload, of any length, and every datagram, some run ends with the client passing |
| `EchoCompletes.Relayed` | demo/xqc_wt_echo_server.c:164-243 | a server that takes the stream in pieces that fit its buffer brings all of it back |
| `EchoServer.Stream.constructor` | demo/xqc_wt_echo_server.c:197-216 | an empty record |
| `EchoServer.Stream.Shift` | demo/xqc_wt_echo_server.c:183-185 | moves the unsent bytes to the front |
| `EchoServer.Stream.BidiFlush` | demo/xqc_wt_echo_server.c:164-195 | the record after a flush, for every answer of the transport |
| `EchoServer.Stream.BidiRead` | demo/xqc_wt_echo_server.c:218-243 | the record after a read: consumed whole, or paused and unchanged |
| `EchoClient.PassMeansEchoed` | demo/xqc_wt_echo_client.c:240-285 | whatever the network does, result 0 means: exactly the payload came back, then a FIN behind the client's own, the datagram matched, and a close with code 0 was sent and answered |
| `EchoClient.HonestStep` | demo/xqc_wt_echo_client.c:110-400 | every callback keeps the counters true to what the network delivered |
| `EchoClient.HonestRead` | demo/xqc_wt_echo_client.c:327-380 | so does the read callback |
| `EchoClient.Context.Flush` | demo/xqc_wt_echo_client.c:110-157 | the context after a flush |
| `EchoClient.Context.TryClose` | demo/xqc_wt_echo_client.c:159-185 | the context after an attempt to close, with the counters as true to the network as before |
| `EchoClient.Context.Compare` | demo/xqc_wt_echo_client.c:357-364 | the comparison loop decides whether the data is the next stretch of payload |
| `EchoClient.Context.Arrived` | demo/xqc_wt_echo_client.c:365-380 | the rest of the read callback |
| `EchoClient.Context.OnStreamRead` | demo/xqc_wt_echo_client.c:327-380 | the context after a read |
| `EchoClient.Context.OnDatagramRead` | demo/xqc_wt_echo_client.c:382-400 | the context after a datagram, with the counters true to the network, that datagram included |
| `EchoClient.Context.OnSessionClosed` | demo/xqc_wt_echo_client.c:240-285 | the context and verdict after the session closed, with the counters and the verdict true to the network |
| `InteropPath.ValidPath` | demo/xqc_webtrans_interop.c:102-133 | accepts exactly the paths of at most 1024 bytes made of components of 1 to 255 allowed characters, none `.` or `..`, with a slash between any two |
| `InteropPath.LegalParts` | demo/xqc_webtrans_interop.c:102-133 | a path splits in one way, and is legal if and only if the parts of that split are good |
| `InteropHeader.ChunkingIndependent` | demo/xqc_webtrans_interop.c:135-174 | however the bytes are cut, the result, the line and where the payload starts are those of one call |
| `InteropHeader.HeaderLanguage` | demo/xqc_webtrans_interop.c:135-174 | accepted is exactly the prefix with a legal path, ended by newline (PUSH) or FIN (GET); more is awaited exactly while a printable line that fits has no end |
| `InteropHeader.SpeltAccepted` | demo/xqc_webtrans_interop.c:135-174 | such a header gives the line and consumes exactly the header |
| `InteropHeader.AcceptedSpells` | demo/xqc_webtrans_interop.c:135-174 | what is accepted is such a header for the path in the line |
| `InteropHeader.HeaderBuffer.Take` | demo/xqc_webtrans_interop.c:147-159 | the loop fills the line buffer and never beyond it |
| `InteropHeader.HeaderBuffer.Judge` | demo/xqc_webtrans_interop.c:167-173 | the check of a complete line |
| `InteropHeader.HeaderBuffer.HeaderFeed` | demo/xqc_webtrans_interop.c:135-174 | the record, the result and the consumed count after a call |
| `InteropSender.FlushCarries` | demo/xqc_webtrans_interop.c:662-726 | over any number of flushes with any short reads, interruptions, short writes and blocks: written, pending and unread bytes are always the message, and the one FIN is behind all of it |
| `InteropSender.CarriesMeans` | demo/xqc_webtrans_interop.c:685-718 | so what is on the wire is a prefix of the message, and a FIN means all of it |
| `InteropSender.PushCarries` | demo/xqc_webtrans_interop.c:728-770 | a push starts as "PUSH name", newline and the file |
| `InteropSender.GetCarries` | demo/xqc_webtrans_interop.c:728-770 | a request starts as "GET name" |
| `InteropSender.SendStream.constructor` | demo/xqc_webtrans_interop.c:728-770 | the record before its first flush |
| `InteropSender.SendStream.Refill` | demo/xqc_webtrans_interop.c:668-684 | a read replaces the pending bytes, or closes the file at its end |
| `InteropSender.SendStream.SendPending` | demo/xqc_webtrans_interop.c:685-722 | one send and what its result means |
| `InteropSender.SendStream.FlushTurn` | demo/xqc_webtrans_interop.c:667-723 | one turn of the loop |
| `InteropSender.SendStream.FlushLoop` | demo/xqc_webtrans_interop.c:662-726 | the whole flush |
| `InteropTransfer.TransferSafety` | demo/xqc_webtrans_interop.c:583-916 | in every run of requester and responder over any number of files, over unidirectional or bidirectional streams, with either of them the server and the session closed under either: each answer is a prefix of the file, behind "PUSH name" and newline where it has a stream of its own, with one FIN behind all of it; a file at 2 is, under its own name, the responder's file; success means all are; neither holds more than 64 stream records; either fails blaming its peer only if the peer's host failed or there are more than 32 pushed files; a client responder that did not fail passes at the close |
| `InteropTransfer.InvStep` | demo/xqc_webtrans_interop.c:583-916 | every stream opened, accepted, refused or stopped, every flush, request and delivery and either close keeps the invariant of both endpoints |
| `InteropTransfer.SuccessServed` | demo/xqc_webtrans_interop.c:498-514 | a requester with all its files leaves a responder that has not failed with nothing to do |
| `InteropTransfer.CloseInv` | demo/xqc_webtrans_interop.c:583-611 | what either close, or a stop of a refused stream, makes of the verdicts keeps the invariant |
| `InteropTransfer.FullMeansMany` | demo/xqc_webtrans_interop.c:624-641 | each file takes at most two records at an endpoint, so that none is refused among 32 files |
| `InteropTransfer.TakenAreAsked` | demo/xqc_webtrans_interop.c:624-641 | over bidirectional streams no request is ever refused |
| `InteropStages.ReceiveStaged` | demo/xqc_webtrans_interop.c:802-916 | the next piece of an answer of either kind, wherever it is cut, takes the file on disk from one stage to the next |
| `InteropTransfer.AnsweredLinked` | demo/xqc_webtrans_interop.c:888-903 | the next piece of a request: the responder opens exactly the requested file when it is complete |
| `InteropStages.SendConveys` | demo/xqc_webtrans_interop.c:662-726 | a flush keeps message, wire and flight in step |
| `InteropStages.ReadConveys` | include/xquic/xqc_webtransport.h:288-311 | a delivery keeps them in step; with the FIN, all has arrived |
| `InteropCompletes.TransferExact` | demo/xqc_webtrans_interop.c:572-770 | for files the responder has, whose names are free at the requester, some run ends in success if and only if there are at most 32 of them over unidirectional, or 64 over bidirectional streams |
| `InteropCompletes.ThirtyThree` | demo/xqc_webtrans_interop.c:624-641 | no run fetches 33 files with names of one letter over unidirectional streams, some run does over bidirectional ones |
| `InteropCompletes.SuccessHolds` | demo/xqc_webtrans_interop.c:624-660 | a requester with all its files holds two stream records for each, or one over bidirectional streams |
| `InteropCompletes.PushGoesOut` | demo/xqc_webtrans_interop.c:662-726 | a transport that accepts what it is offered gets header, file and FIN, for a file of any length |
| `InteropCompletes.DeliveredWhole` | demo/xqc_webtrans_interop.c:802-916 | an answer that arrives in one piece is stored, counted and, if it is the last, ends in success |
| `InteropDatagramTransfer.DatagramSafety` | demo/xqc_webtrans_interop.c:583-611 | in every run of requester and responder over a network that loses, repeats, delays and reorders datagrams, with the session closed under either: the files at 2 are the first completed ones, each is the responder's file, success means all are; a requester blames the responder only if that one's host failed; a responder the requester only if that one's host failed or it had all its files |
| `InteropDatagramTransfer.ResponderAtClose` | demo/xqc_webtrans_interop.c:498-514 | with the requester at success, a responder that has not failed fails at the close if and only if it is the client and a reply waits in its queue; otherwise, as the client, it passes |
| `InteropDatagramTransfer.RepeatBlamed` | demo/xqc_webtrans_interop.c:583-611 | for every file that fits, a run in which the request arrives twice, the requester succeeds and the responder fails |
| `InteropDatagramTransfer.DatagramExact` | demo/xqc_webtrans_interop.c:1092-1146 | for files the responder has, whose names are free at the requester, success can be reached if and only if every file fits one datagram behind its header |
| `InteropDatagramTransfer.InvStep` | demo/xqc_webtrans_interop.c:1017-1146 | every request, answer, send and delivery and either close keeps the invariant of both endpoints |
| `InteropDatagramTransfer.HandInv` | demo/xqc_webtrans_interop.c:802-869 | so does every push datagram, new or repeated |
| `InteropDatagramTransfer.BuildReply` | demo/xqc_webtrans_interop.c:1120-1140 | the response loop collects the header and the file up to one byte more than a datagram may have |
| `InteropRequester.Accounting` | demo/xqc_webtrans_interop.c:802-869 | against any peer, in every reachable state: completed is the number of files at 2; success means all requested files are; in datagram mode exactly the first completed ones are; never more requests than files |
| `InteropRequester.StepSound` | demo/xqc_webtrans_interop.c:480-916 | every event keeps that, a file's state only goes up, a completed or never requested file is not written again |
| `InteropRequester.ReceiveFileEffect` | demo/xqc_webtrans_interop.c:802-869 | receiving touches one file's state and content, and never a file that another record holds or that is complete |
| `InteropRequester.DatagramInOrder` | demo/xqc_webtrans_interop.c:819-834 | a datagram completes the next file or none |
| `InteropRequester.RepeatedPush` | demo/xqc_webtrans_interop.c:810-818 | a repeated PUSH datagram of a completed file changes nothing |
| `InteropContext.CollectFiles` | demo/xqc_webtrans_interop.c:1284-1298 | accepts exactly lists of 1 to 256 pairwise distinct legal paths |
| `InteropContext.Context.WriteAll` | demo/xqc_webtrans_interop.c:835-847 | the write loop appends what was written, all of it on success |
| `InteropContext.Context.FinishFile` | demo/xqc_webtrans_interop.c:848-868 | closing the file: state 2, one more completed, session closed or next request |
| `InteropContext.Context.Search` | demo/xqc_webtrans_interop.c:810-818 | the first file of that name |
| `InteropContext.Context.BeginFile` | demo/xqc_webtrans_interop.c:827-834 | state 1 and a new output file, or a failure, always if the name is taken or is a directory of another file or in one |
| `InteropContext.Context.ReceiveNamed` | demo/xqc_webtrans_interop.c:802-869 | the context and record after receiving |
| `InteropContext.Context.OnPushData` | demo/xqc_webtrans_interop.c:871-916 | the same for data of a unidirectional stream |
| `InteropContext.Context.OnStreamData` | demo/xqc_webtrans_interop.c:871-916 | the same for data of any stream |
| `InteropContext.Context.OnDatagramData` | demo/xqc_webtrans_interop.c:1092-1118 | the same for a datagram |
| `InteropContext.Context.CompleteSession` | demo/xqc_webtrans_interop.c:516-533 | success, or a failure to close, once, with the count of complete files right as before |
| `InteropContext.Context.RequestNext` | demo/xqc_webtrans_interop.c:1017-1036 | the request for the next file, if one is left, with the count of complete files right as before |
| `InteropDatagrams.RingIsQueue` | demo/xqc_webtrans_interop.c:997-1090 | over every run, across blocks, pacing and ticks, until the session closes: sent, then waiting, is what was accepted, in order; at most 256 wait; a responder's count is what it sent |
| `InteropDatagrams.StepFifo` | demo/xqc_webtrans_interop.c:997-1090 | every event keeps that |
| `InteropDatagrams.Pacing` | demo/xqc_webtrans_interop.c:1046-1077 | a paced queue sends at most one at a time, none early, and waits 2000 microseconds from the clock behind the send |
| `InteropDatagrams.RequestsFit` | demo/xqc_webtrans_interop.c:1003-1008 | a requester's requests never meet the bound of the queue |
| `InteropDatagrams.WindowPop` | demo/xqc_webtrans_interop.c:1067-1069 | moving the head around the end drops the first |
| `InteropDatagrams.WindowPush` | demo/xqc_webtrans_interop.c:1009-1013 | writing behind the last, around the end, appends |
| `InteropDatagrams.Ring.Push` | demo/xqc_webtrans_interop.c:997-1015 | the ring after queueing, or a failure at its bounds |
| `InteropDatagrams.Ring.Pop` | demo/xqc_webtrans_interop.c:1067-1077 | the ring after a send |
| `InteropDatagrams.Ring.Clear` | demo/xqc_webtrans_interop.c:604-605 | the ring after the session closed |
| `InteropDatagrams.Ring.DrainLoop` | demo/xqc_webtrans_interop.c:1052-1078 | the send loop |
| `InteropDatagrams.Ring.DatagramWrite` | demo/xqc_webtrans_interop.c:1038-1080 | the guard and the loop |
| `InteropDatagrams.Ring.OnTick` | demo/xqc_webtrans_interop.c:1082-1090 | the timer's call of it |
| `HqProtocol.HqSafety` | demo/xqc_hq_request.c:266-349 | in every run, for any cutting, buffer sizes and old buffer content: fin is raised at most once; a resource of 1 to 255 bytes without white space is handed out in order, with fin exactly when complete; no other resource ever is; of any resource nothing but its first word, cut at 255 bytes, is handed out, and where it starts with no white space, fin comes exactly with the whole of that word |
| `HqProtocol.HqExact` | demo/xqc_hq_request.c:189-349 | a resource can be handed out whole if and only if it is such a one |
| `HqProtocol.HqWhole` | demo/xqc_hq_request.c:231-349 | the first word of any resource can be handed out whole if and only if there is one and the line fits the buffer, or the word does and CR LF stands where the parser looks for it |
| `HqProtocol.SpaceCuts` | demo/xqc_hq_request.c:231-264 | for "a b" it is "a", with fin |
| `HqProtocol.SpacedCutShort` | demo/xqc_hq_request.c:231-264 | a resource that starts with white space, and a run that hands out less than its first word, with fin |
| `HqProtocol.Progress` | demo/xqc_hq_request.c:334-348 | once the line is there, a call hands out as much as its buffer holds |
| `HqProtocol.LaterNothing` | demo/xqc_hq_request.c:330-336 | after fin, later calls hand out nothing, whatever still arrives |
| `HqProtocol.ReceiveInv` | demo/xqc_hq_request.c:266-349 | every call keeps the invariant and, for such a resource, reports no protocol error |
| `HqProtocol.ParsePrefix` | demo/xqc_hq_request.c:231-264 | a line is parsed as far as it has arrived, and counts as ended exactly when CR LF is there |
| `HqRecord.Request.SendData` | demo/xqc_hq_request.c:165-186 | what the transport takes is the next stretch of the line, with FIN exactly at its end |
| `HqRecord.Request.SendReq` | demo/xqc_hq_request.c:189-215 | formats the line once and sends it |
| `HqRecord.Request.FetchLoop` | demo/xqc_hq_request.c:278-297 | the receive loop and its ways out |
| `HqRecord.Request.ParseReq` | demo/xqc_hq_request.c:231-264 | the scan of the buffer |
| `HqRecord.Request.ServePiece` | demo/xqc_hq_request.c:334-348 | the next piece, what is left, or an error |
| `HqRecord.Request.RecvReq` | demo/xqc_hq_request.c:266-349 | the record, the stream and the reply after a call |

## Left out

- JsonStrict.RfcParses: says nothing of a \u escape of half a surrogate pair, whose meaning section 8.2 of RFC 8259 leaves open and which the parser refuses; bytes from 128 on are not examined as UTF-8, neither by the parser nor here.
- Numbers that are no 32-bit integers are read exactly, as reals, and not printed: rounding and formatting of doubles are the C library's.
- Raw and reference items, items of an invalid type, NULL strings, case-insensitive lookup, allocation hooks and allocation failure.
- The rest of the cJSON interface (setters, typed adders, `cJSON_Delete`): it only wraps the operations above.
- JsonCompare.CompareItems: says nothing of two different trees that share items and both give one name two meanings, where the shortcut for one item met twice decides.
- EchoProtocol.EchoSafety: without STOP_SENDING and message mode, for one session with one stream; no progress, since a piece larger than the buffer is never taken.
- InteropTransfer.TransferSafety: a stream that is refused for want of a record delivers nothing, and its opener may be told so; a session is closed only by an endpoint that failed or a requester that succeeded.
- InteropCompletes.TransferExact: the disk holds files only; a directory that was there before and has no file of its own is one of the host's reasons not to open a file.
- InteropDatagramTransfer.DatagramSafety: a request counts as possibly under way as soon as it is queued, and the bound of the responder's queue is one of its host's answers, so that the rings of `InteropDatagrams` add no run.
- InteropRequester.Accounting: the handshake case and the final combination of success and failure are not modelled.
- InteropDatagrams.RingIsQueue: says nothing about what waits when the session closes, which is dropped.
- HqRecord.Request.SendData: a transport that keeps accepting nothing without an error is a list of answers like any other; the loop then goes on for ever in the source.
- Sockets, timers, TLS, option parsing, the transport's own code and the scripts.
