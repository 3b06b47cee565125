# Verified model of CitiCash's UPnP client, logging and coin emission

CitiCash is a CryptoNote coin.  This project models, in Dafny, the parts of its repository with the most state and
branching, and proves what they are for:

* the miniupnpc client library under `external/miniupnpc`: the callback-driven XML scanner, the SOAP request writer,
  the readers of replies, port listings and device descriptions, the choice of an Internet gateway device, the wire
  format of the MiniSSDPd daemon, and the HTTP client with its chunked transfer coding;
* the Easylogging++ header under `external/easylogging++`: wildcard patterns, log categories, level configuration with
  its compressed typed maps, and hit counters;
* the "camel" emission schedule: the C++ and the Python script under `scripts` with the constants of
  `src/cryptonote_config.h`.

Code that works step by step is a class or a method with loops over the source's own variables, proved against a
function; what the source promises is then proved about that function.  The network is a list of received segments, the
answers of gateways and the results of `rand()` are parameters, and `malloc` succeeds.

`dafny verify dfyconfig.toml` checks the whole project.

## Layout

| file | contents |
|---|---|
| `Seqs.dfy`, `Arith.dfy`, `Text.dfy` | concatenation, quotients, C strings, decimal numbers, `atoi` |
| `MiniXml.dfy` | the XML scanner: cursor functions, the parser class, spans |
| `XmlTree.dfy`, `XmlRoundTrip.dfy`, `XmlUnquoted.dfy` | element trees, printing followed by scanning, values without quotes |
| `XmlCut.dfy`, `ReceivedXml.dfy` | texts that are cut short, documents as the body of a response |
| `NameValue.dfy`, `ReplyRoundTrip.dfy` | name/value replies: their reader, and what it makes of printed ones |
| `Soap.dfy`, `SoapRoundTrip.dfy` | the SOAP request writer, and what the reader of replies makes of its bodies |
| `PortListing.dfy` | port mapping listings |
| `IgdDesc.dfy`, `IgdSelect.dfy` | device descriptions and the choice of a gateway |
| `Records.dfy`, `SsdpWire.dfy` | streams of self-delimiting records, and the MiniSSDPd wire format |
| `HttpHeaders.dfy`, `HttpMeaning.dfy`, `HttpBuffer.dfy` | end of headers, header lines and what they declare, growing buffers |
| `HttpChunks.dfy`, `ChunkExtensions.dfy`, `ChunkSizes.dfy`, `HttpChunkReader.dfy` | chunked coding: automaton, extensions, long sizes, loops |
| `HttpResponse.dfy`, `HttpReceiver.dfy` | whole responses, `getHTTPResponse` |
| `HttpTestServer.dfy`, `HttpExamples.dfy` | the test server, responses that are misread |
| `Emission.dfy`, `EmissionConfig.dfy` | the emission of coins, in general and with the constants of both scripts |
| `Wildcard.dfy`, `LogLevels.dfy`, `LogCategories.dfy` | patterns, levels, categories |
| `LogConfig.dfy`, `LogTyped.dfy` | level configuration and typed maps |
| `HitCounters.dfy` | every-n, after-n and n-times counters |

## What does not hold of the code

Several properties one would expect turn out to be false; each has a concrete failing input and the exact condition
under which the code does what is expected.

* Chunk extensions: "1;a" received in two pieces, cut behind the semicolon, is read as 1a, and "0;a" as a chunk of 10
  bytes (`ChunkExtensions.DigitOfExtensionCounts`).  A size line is read as its size for every segmentation exactly
  when its extension is harmless (`ChunkExtensions.SkippedIff`, for every size below 2^31); for sizes from 1 to
  2^28 - 1 that is when it has no hexadecimal digit (`ChunkExtensions.SmallSizes`); 0 and the larger sizes that are one
  digit written eight times allow that digit too.
* Chunk sizes of more than 31 digits: the digits behind the 31st are dropped, and 31 zeros and a one are taken for the
  end of the message (`ChunkSizes.ManyZerosEnd`).  A size line received in one piece is read as the size it writes
  exactly when it has at most 31 digits or writes 0 (`ChunkSizes.LongSizeIff`).
* A chunked response that also has a Content-Length: with a length of 1, "ab" is cut short to "a" when the cut falls
  between the two (`HttpExamples.LengthCutsChunks`).  The data is delivered for every segmentation exactly when that
  length is not short of it (`HttpResponse.ChunkedWithLengthIff`).
* A Content-Length of 0 does not end the body: a byte behind the headers is delivered
  (`HttpExamples.ZeroLengthReadsOn`), where section 3.3.3 of RFC 7230 gives an empty body.  A declared length is what
  is delivered, for every segmentation that brings that much, exactly when it is positive or there is no body
  (`HttpResponse.PlainAsDeclared`).
* A blank Content-Length is read from whatever follows the line: with the body "7" it is 7
  (`HttpExamples.BlankLengthIsSeven`).  A header is read from its own line exactly when it is not a blank Content-Length
  (`HttpHeaders.ReadAloneIff`).
* Header names are compared over their own length only: "C: 5" gives a length and "T: chunked" a coding
  (`HttpMeaning.BeginningsCount`).  A header is read as what it declares, whatever its value, exactly when its name is
  no proper beginning of either word and neither word with a NUL behind it (`HttpMeaning.HeaderMeantIff`); a list of
  headers is, exactly when no name is mistaken for Transfer-Encoding and every name mistaken for Content-Length has a
  Content-Length after it (`HttpMeaning.MeantIff`).
* Attribute values without quotes: in "<a b=c>d</a>" the tag's '>' is lost with all that follows, and in
  "<a b=c/d >e</a>" the value is cut at its '/' and the rest is lost (`XmlUnquoted.SwallowsEnd`,
  `XmlUnquoted.SlashCuts`).  A list of well-formed attributes and a last one without quotes is read as it is meant, and
  ends where its tag does, exactly when that last value is not empty, has no '/' and no '>' in it and is followed by
  white space (`XmlUnquoted.UnquotedIff`).
* The element names of a port listing are compared by prefix: "New" is taken for a remote host
  (`PortListing.PrefixIsTakenForName`), and a known name with a NUL behind it for that name
  (`PortListing.NulIsTakenForEnd`).  A name is taken for unknown exactly when it is neither a beginning of a known name
  nor one with a NUL behind it (`PortListing.UnknownIffNoPrefix`).
* A service that starts inside another makes the texts read so far of the outer one disappear: a connection service with
  an empty service behind its type is not found (`IgdDesc.NestedClears`).  A service whose type is given once is found
  by it exactly when no service starts between the type and the end (`IgdDesc.FoundIff`).
* The test server's response buffer is too short for 37 bytes sent in chunks of one byte
  (`HttpTestServer.OnesDoNotFit`).  It is long enough, whatever chunk sizes are drawn, exactly when the content has at
  most 36 bytes (`HttpTestServer.FitsIff`).
* The typed maps of a logger lose the value that was set first when Global is set later
  (`LogTyped.FirstValueLost`, `LogTyped.AnswersLastIff`), and Global does not reach the level Unknown
  (`LogTyped.UnknownKeepsItsValue`).
* The every-n counter fires differently for n = 100001 (`HitCounters.EveryNBeyondLimit`) and works exactly for n up to
  100000 (`HitCounters.EveryNIff`).
* Log categories run on into the next: "a,b:INFO" and "a:x,b:INFO" are read as "ab", and ":INFO,b" gives "b" a level
  (`LogCategories.NameWithoutLevelRunsOn`, `LogCategories.UnreadableLevelRunsOn`,
  `LogCategories.LevelWithoutNameRunsOn`).  A piece of the text stands alone exactly when it has both a name and a
  readable level, or neither (`LogCategories.StandsAloneIff`).

## Model

| member | source | states |
|---|---|---|
| `MiniXml.ParseXml` | external/miniupnpc/minixml.c:110-227 | for every memory and size the scan ends, and reports exactly the events of the cursor functions |
| `MiniXml.EventSpansDisjoint` | external/miniupnpc/minixml.c:39-219 | for every buffer whatsoever, every reported name, attribute and data span lies within it; spans are disjoint and in increasing order |
| `MiniXml.EventSpans` | external/miniupnpc/minixml.c:114-218 | from every cursor on, the spans are in order behind the cursor |
| `MiniXml.RoundSpans` | external/miniupnpc/minixml.c:116-217 | a round of the outer loop reports spans between the cursor before it and the cursor after it |
| `MiniXml.AttSpans` | external/miniupnpc/minixml.c:39-106 | attribute spans lie in order between the start and the end of the attribute list |
| `MiniXml.ParseRound` | external/miniupnpc/minixml.c:114-218 | every round of the outer loop that goes on moves the cursor forward |
| `MiniXml.Parser.SkipUntil` | external/miniupnpc/minixml.c:54-97 | the scanning loops stop at the first byte that ends them or fail at the limit |
| `MiniXml.Parser.SkipUntilSeq` | external/miniupnpc/minixml.c:120-126 | the loops that wait for a terminator stop at its first occurrence or fail near the end |
| `MiniXml.Parser.AttValue` | external/miniupnpc/minixml.c:71-101 | quoted and unquoted values end where the value function says |
| `MiniXml.Parser.Attributes` | external/miniupnpc/minixml.c:39-106 | parseatt reports the attributes of the specification and ends on '/' or '>' exactly when it returns 0 |
| `MiniXml.Parser.Content` | external/miniupnpc/minixml.c:152-196 | character data and CDATA after a start tag, with its early returns |
| `MiniXml.Parser.ElementName` | external/miniupnpc/minixml.c:131-145 | the name loop drops everything up to the last ':' |
| `MiniXml.Parser.StartTag` | external/miniupnpc/minixml.c:146-197 | start event, attributes and content |
| `MiniXml.Parser.EndTag` | external/miniupnpc/minixml.c:198-212 | end event up to '>' |
| `MiniXml.Parser.Round` | external/miniupnpc/minixml.c:116-217 | one round: comment, element, end tag or a single skipped byte |
| `MiniXml.Parser.Elements` | external/miniupnpc/minixml.c:110-219 | parseelt ends and reports exactly the events of the specification |
| `XmlRoundTrip.PrintThenParse` | external/miniupnpc/minixml.c:39-227 | for every element tree with plain names, attributes in quotes or without quotes but followed by white space, '<'-free or CDATA text, fillers, comments and processing instructions, and whatever bytes follow in memory, printing then scanning makes exactly the tree's callbacks in document order: mixed text dropped, prefixes stripped from start names, empty-element tags giving a start only |
| `XmlRoundTrip.ElementThrough` | external/miniupnpc/minixml.c:110-219 | the same for one element anywhere in a buffer |
| `XmlRoundTrip.AttsThrough` | external/miniupnpc/minixml.c:39-106 | a printed attribute list is read back name by name and value by value |
| `XmlUnquoted.UnquotedIff` | external/miniupnpc/minixml.c:45-104 | an attribute list, of well-formed attributes and a last one whose value has no quotes and no white space in it, is read name by name and value by value and ends at the '>' or '/' of its tag exactly when the last value is not empty, has no '/' and no '>' in it and is followed by white space |
| `XmlUnquoted.SwallowsEnd` | external/miniupnpc/minixml.c:88-104 | "<a b=c>d</a>" is read as a start and an attribute and nothing more |
| `XmlUnquoted.SlashCuts` | external/miniupnpc/minixml.c:88-104 | so is "<a b=c/d >e</a>", the value being "c" |
| `XmlRoundTrip.CDataThrough` | external/miniupnpc/minixml.c:164-184 | a CDATA section is read up to its first terminator, whatever it contains |
| `XmlRoundTrip.CommentSkipped` | external/miniupnpc/minixml.c:116-128 | a comment produces no callback |
| `XmlCut.PartMakesFirst` | external/miniupnpc/minixml.c:39-227 | whatever the text and wherever it is cut: scanned by itself, with a NUL behind it, the part before the cut makes the first callbacks of the whole, with the same texts, and no others |
| `XmlCut.EventsPart` | external/miniupnpc/minixml.c:110-219 | the same from every cursor on |
| `XmlCut.AttsPart` | external/miniupnpc/minixml.c:39-106 | the attributes found in the part are the first of the whole, and all of them if the list ends in the part |
| `XmlCut.CutDocument` | external/miniupnpc/minixml.c:39-227 | a printed document cut short makes a beginning of its callbacks |
| `NameValues.ParserData.Parse` | external/miniupnpc/upnpreplyparse.c:102-119 | the state is the fold of the callbacks over everything the scanner reports, on a reset list |
| `NameValues.ParserData.GetValue` | external/miniupnpc/upnpreplyparse.c:138-152 | the value of the first entry with the name |
| `NameValues.Lookup` | external/miniupnpc/upnpreplyparse.c:138-152 | nothing exactly when no entry has the name, else the value of the first that has |
| `ReplyRoundTrip.ReplyRead` | external/miniupnpc/upnpreplyparse.c:15-119 | for every reply of elements with texts, plain or CDATA, at any depth inside enclosing elements: the list holds exactly the texts by name, newest first, names cut to 63 bytes and texts to 127, and the port listing is the whole text of the last NewPortListing that has one |
| `ReplyRoundTrip.PortListingRead` | external/miniupnpc/upnpreplyparse.c:38-80 | a reply whose only text is a NewPortListing gives that text whole and an empty list |
| `ReplyRoundTrip.LastItemWins` | external/miniupnpc/upnpreplyparse.c:138-152 | looking up a name in that list gives the last text of that name, and nothing when there is none |
| `Soap.WriteBody` | external/miniupnpc/miniupnpc.c:131-214 | the writer succeeds exactly when the whole envelope has at most 2047 bytes, and then the buffer holds exactly the envelope; with and without an argument list |
| `Soap.PutArg` | external/miniupnpc/miniupnpc.c:164-198 | one argument is written whole, or the writer gives up only when it cannot fit |
| `Soap.PutTail` | external/miniupnpc/miniupnpc.c:199-213 | the closing tags, where the last byte of the padded buffer tells whether they fit |
| `Soap.StrNCpy` | external/miniupnpc/miniupnpc.c:210-212 | strncpy pads with NULs, and the last byte is one exactly when the text ends before it |
| `SoapRoundTrip.EnvelopeIsTree` | external/miniupnpc/miniupnpc.c:135-211 | the envelope is the print of an element tree |
| `SoapRoundTrip.ArgumentsComeBack` | external/miniupnpc/upnpreplyparse.c:15-119 | for every non-empty argument list with plain names and '<'-free values, of any lengths, ParseNameValue on the envelope yields the arguments in reverse, names cut to 63 bytes and values to 127, and an argument NewPortListing whole as the port listing |
| `PortListing.ListingComesBack` | external/miniupnpc/portlistingparse.c:49-159 | for every list of mappings, with texts of any length and numbers below 2^64, printing it under the nine literal element names and parsing it gives the reversed list as the widths of the fields keep it: texts cut to 63 bytes, the protocol to 3, ports modulo 2^16, the flag modulo 2^8; empty fields included |
| `PortListing.PortMappingListComesBack` | external/miniupnpc/portlistingparse.c:49-159 | the same for a root called PortMappingList, with any prefix and attributes |
| `PortListing.StoredSame` | external/miniupnpc/portlistingparse.h:37-47 | a mapping comes back as it was exactly when its texts and numbers fit those widths |
| `PortListing.NamesAre` | external/miniupnpc/portlistingparse.c:16-27 | the nine names, written out, are recognised |
| `PortListing.EmptyEntry` | external/miniupnpc/portlistingparse.c:65-79 | an entry without fields is a mapping of empty texts and zeros |
| `PortListing.UnknownIffNoPrefix` | external/miniupnpc/portlistingparse.c:55-63 | an element is taken for unknown exactly when its name is neither a beginning of a known name nor a known name with a NUL byte behind it |
| `PortListing.NulIsTakenForEnd` | external/miniupnpc/portlistingparse.c:56-63 | every known name with a NUL byte behind it is taken for that name |
| `PortListing.PrefixIsTakenForName` | external/miniupnpc/portlistingparse.c:56-63 | an element "New" is taken for a remote host |
| `PortListing.ClassifyName` | external/miniupnpc/portlistingparse.c:16-63 | every known name is recognised as itself in spite of the prefix comparison |
| `PortListing.ComputeAtoui` | external/miniupnpc/portlistingparse.c:32-47 | the loop computes the number of the leading digits, wrapping at the width of the type |
| `PortListing.AtouiOfDecimal` | external/miniupnpc/portlistingparse.c:32-47 | every number comes back from its decimal text modulo 2^64 |
| `PortListing.ParserData.Startelt` | external/miniupnpc/portlistingparse.c:49-80 | classification, and a zeroed mapping pushed for every entry |
| `PortListing.ParserData.Parse` | external/miniupnpc/portlistingparse.c:143-159 | the fold of the callbacks over everything the scanner reports |
| `IgdDesc.DescriptionRead` | external/miniupnpc/igd_desc_parse.c:15-91 | when no service is nested in another, the services of the next row are those of the description, each with its own texts |
| `IgdDesc.DescriptionSeen` | external/miniupnpc/igd_desc_parse.c:15-91 | for every description, parsed into zeroed data, the services being those that end, each with the texts since a service last started: `first` is the first WANIP or WANPPP connection, `second` the last later one, CIF and IPv6FC the last of their kinds; base and presentation URL the last of their kind; the level ends at the number of empty-element tags, 0 without them |
| `IgdDesc.FoundIff` | external/miniupnpc/igd_desc_parse.c:15-60 | a connection service with its type first, and whatever other markup that gives no type behind it, is found by its type when the printed description is parsed exactly when no service starts in that markup |
| `IgdDesc.NestedClears` | external/miniupnpc/igd_desc_parse.c:15-60 | with an empty service in that place nothing is found |
| `IgdDesc.FirstConnection` | external/miniupnpc/igd_desc_parse.c:49-58 | the first connection goes to `first`, the last of the others to `second` |
| `IgdDesc.KindsAre` | external/miniupnpc/igd_desc_parse.c:36-60 | the kind of every service type, exactly, by the four beginnings written out |
| `IgdDesc.EndsUpIn` | external/miniupnpc/igd_desc_parse.c:36-60 | a description of one service puts it where its type belongs, and the other three places stay empty |
| `IgdDesc.IgdDatas.Parse` | external/miniupnpc/miniupnpc.c:95-106 | the fold of the callbacks over everything the scanner reports |
| `IgdSelect.PrivateBlocks` | external/miniupnpc/miniupnpc.c:77-92 | on every dotted quad the textual test is membership in one of the three blocks of section 3 of RFC 1918 |
| `IgdSelect.GetValidIgd` | external/miniupnpc/miniupnpc.c:556-692 | for every device list and all network answers: 1 exactly when some gateway has a connected first or second service with a usable public address, else 2 exactly when there is a gateway, else 3 exactly when a description was fetched, else 0; the first such device in list order with its data; on a positive result exactly one URL set live, that of this data: absolute URLs as they are, others behind scheme and host of the base URL, or of the description URL when there is none; and none live on 0 |
| `IgdSelect.DescribedUrls` | external/miniupnpc/miniupnpc.c:484-500 | in terms of the description itself: the set has the control and description URL of the first connection service, or of the last later one after the swap, and the control URLs of the last interface configuration and firewall control, all resolved against the last URLBase if there is one |
| `IgdSelect.UrlsOfIs` | external/miniupnpc/miniupnpc.c:484-500 | the URL set computed is that set |
| `IgdSelect.AbsoluteResolves` | external/miniupnpc/miniupnpc.c:410-479 | a URL with a scheme stays, any other goes behind the first "/" from byte 7 on of the base, or behind all of it, with one "/" between |
| `IgdSelect.PathResolves` | external/miniupnpc/miniupnpc.c:410-479 | against "http://", a host and a path, a path is resolved to "http://", that host and that path |
| `IgdSelect.Probe` | external/miniupnpc/miniupnpc.c:593-620 | every fetched description is classified and nothing stays allocated |
| `IgdSelect.TryConnected` | external/miniupnpc/miniupnpc.c:635-675 | first service, then the second with both swapped; every URL set of a failed attempt is freed |
| `IgdSelect.Pass` | external/miniupnpc/miniupnpc.c:622-680 | a pass stops at the first device wanted in its state, or goes through all of them and leaves nothing allocated |
| `Records.CutShort` | external/miniupnpc/minissdpc.c:282-362 | for any self-delimiting encoding, any list and any place where the stream ends: exactly the completely received records, in reverse, and success exactly when all arrived |
| `Records.CompleteIs` | external/miniupnpc/minissdpc.c:282-362 | the count of completely received records is that of the longest list whose bytes have come |
| `SsdpWire.LengthRoundTrip` | external/miniupnpc/codelength.h:24-52 | decoding undoes encoding on every 32-bit length and consumes exactly the bytes written |
| `SsdpWire.LengthStable` | external/miniupnpc/codelength.h:24-31 | a decoded length does not depend on what follows |
| `SsdpWire.DeviceRoundTrip` | external/miniupnpc/minissdpc.c:284-359 | a device record is read back from its bytes, whatever follows |
| `SsdpWire.DeviceCutShort` | external/miniupnpc/minissdpc.c:284-358 | no proper beginning of a record is taken for a record |
| `SsdpWire.ReplyCutShort` | external/miniupnpc/minissdpc.c:258-376 | for any list of up to 255 records and any truncation at or after the count byte, exactly the complete records in reverse, with success exactly when all arrived |
| `SsdpWire.ReceiveDevices` | external/miniupnpc/minissdpc.c:258-376 | whatever reads of 1 to 256 bytes deliver the stream, the result is that of the stream as a whole |
| `SsdpWire.Reader.ReadByte` | external/miniupnpc/minissdpc.c:127-133 | the next byte of the stream, refilling the buffer; failure exactly at its end |
| `SsdpWire.Reader.ReadLength` | external/miniupnpc/codelength.h:24-31 | the length at the head of the stream |
| `SsdpWire.Reader.ReadCopy` | external/miniupnpc/minissdpc.c:139-152 | the next bytes of the stream, across any number of reads |
| `SsdpWire.RequestReadsBack` | external/miniupnpc/minissdpc.c:220-256 | a request is sent exactly for types of at most 253 bytes; it is of kind 3 for "ssdp:all" and of kind 1 otherwise, and reads back as the type |
| `HttpHeaders.FindEndOfHeaders` | external/miniupnpc/miniwget.c:134-156 | the search loop finds the end of the headers of the specification |
| `HttpHeaders.EndIsStable` | external/miniupnpc/miniwget.c:114-158 | once found, the end is the same in every longer buffer; an end within a shorter buffer is found in it |
| `HttpHeaders.EndIsInLatestReceive` | external/miniupnpc/miniwget.c:224-226 | the end lies beyond everything held before the latest receive, so what is left over is strictly shorter than that receive |
| `HttpHeaders.EndOfPrinted` | external/miniupnpc/miniwget.c:134-156 | headers printed with CR LF end where their text ends, whatever follows |
| `HttpHeaders.EndOfPrintedLf` | external/miniupnpc/miniwget.c:148-152 | so do headers printed with LF alone, when no line is empty |
| `HttpHeaders.ReadHeaders` | external/miniupnpc/miniwget.c:159-223 | the loop over the header lines computes Content-Length and chunked as specified |
| `HttpMeaning.DeclaredReadBack` | external/miniupnpc/miniwget.c:159-223 | printed headers with clear names are read back as what they declare by whole case-insensitive names, whatever part of the body came with them |
| `HttpMeaning.DeclaredIs` | external/miniupnpc/miniwget.c:201-215 | that is the number of the last Content-Length, -1 without one, and chunked exactly when some Transfer-Encoding says so |
| `HttpMeaning.WordsAre` | external/miniupnpc/miniwget.c:201-211 | the two names and the value that count are "content-length", "transfer-encoding" and "chunked", every letter in either case |
| `Text.AtoiIs` | external/miniupnpc/miniwget.c:203 | a length is read from white space, a sign and decimal digits, whatever follows them |
| `HttpMeaning.HeaderMeantIff` | external/miniupnpc/miniwget.c:201-209 | one header is read as what it declares, whatever its value, exactly when its name is not mistaken: no proper beginning of either word, and neither word with a NUL behind it |
| `HttpMeaning.MeantIff` | external/miniupnpc/miniwget.c:201-215 | a list of headers is read as what it declares, whatever the values, exactly when no name is mistaken for Transfer-Encoding and every name mistaken for Content-Length has a Content-Length after it |
| `HttpMeaning.BeginningsCount` | external/miniupnpc/miniwget.c:201-209 | "C: 5" gives a length, and "T: chunked" a coding |
| `HttpHeaders.ReadAloneIff` | external/miniupnpc/miniwget.c:201-215 | a header is read from its own line alone exactly when it is not a Content-Length with a blank value |
| `HttpHeaders.BlankLengthReadsOn` | external/miniupnpc/miniwget.c:201-207 | a blank Content-Length takes the number of whatever follows |
| `HttpHeaders.BlankLengthTakesBody` | external/miniupnpc/miniwget.c:159-207 | as the only header, it takes the number at the start of the body |
| `HttpExamples.BlankLengthIsSeven` | external/miniupnpc/miniwget.c:201-207 | a blank Content-Length with "7" behind the headers is 7 |
| `HttpBuffer.Buffer.Append` | external/miniupnpc/miniwget.c:284-303 | the contents grow by exactly the bytes copied and never beyond the capacity, which is kept, set to the content length, or set to what is needed |
| `HttpBuffer.Buffer.Grow` | external/miniupnpc/miniwget.c:292-300 | a longer buffer with the same contents |
| `HttpChunks.HexRoundTrip` | external/miniupnpc/miniwget.c:256-263 | a printed chunk size is read back |
| `HttpChunks.WrittenIsRead` | external/miniupnpc/miniwget.c:256-263 | a size written in hexadecimal digits in any capitalisation, with any number of leading zeros, is read as that size |
| `HttpChunks.DigitValues` | external/miniupnpc/miniwget.c:256-263 | the value of each of the 22 hexadecimal digits |
| `HttpChunks.StepKeeps` | external/miniupnpc/miniwget.c:235-306 | every byte of an encoding takes the decoder to the next place, keeping data delivered plus data due equal to the payload |
| `HttpChunks.BoundaryKeeps` | external/miniupnpc/miniwget.c:235-270 | so does the end of a receive, wherever it falls: inside a line end, a size, an extension or data |
| `HttpChunks.ChunkedRoundTrip` | external/miniupnpc/miniwget.c:232-307 | for every list of chunks, with sizes below 2^31 written in up to 31 digits of any capitalisation and extensions free of line ends and hexadecimal digits, and every segmentation, exactly the payload once the last size line has come, whatever follows, and a beginning of it before |
| `ChunkExtensions.SkippedIff` | external/miniupnpc/miniwget.c:240-270 | for every size below 2^31 and every extension, the size line is read as its size for every segmentation exactly when every hexadecimal digit of the extension is harmless: the size is that digit written eight times (0 for size 0), or it is some digit written eight times and eight more hexadecimal digits follow directly, within the 31 that are kept |
| `ChunkExtensions.SmallSizes` | external/miniupnpc/miniwget.c:240-270 | for sizes from 1 to 2^28 - 1 that is when the extension has no hexadecimal digit |
| `ChunkExtensions.DigitOfExtensionCounts` | external/miniupnpc/miniwget.c:245-253 | "1;a" cut behind the semicolon is read as 26, and "0;a" as a chunk of 10 bytes |
| `ChunkSizes.LongSizeIff` | external/miniupnpc/miniwget.c:245-265 | a size line without extension, received in one piece, is read as the size it writes exactly when it has at most 31 digits or writes 0 |
| `ChunkSizes.ManyZerosEnd` | external/miniupnpc/miniwget.c:245-265 | 31 zeros and a one are taken for the end of the message |
| `HttpChunkReader.ChunkReader.SkipLead` | external/miniupnpc/miniwget.c:240-244 | the leading line end, as the automaton reads it |
| `HttpChunkReader.ChunkReader.ReadDigits` | external/miniupnpc/miniwget.c:245-251 | up to 31 digits in a buffer of 32, as the automaton reads them |
| `HttpChunkReader.ChunkReader.SkipExt` | external/miniupnpc/miniwget.c:252-253 | the chunk extension, as the automaton reads it |
| `HttpChunkReader.ChunkReader.ReadSize` | external/miniupnpc/miniwget.c:256-265 | the value of the digits modulo 2^32, and an empty buffer |
| `HttpChunkReader.ChunkReader.SizeLine` | external/miniupnpc/miniwget.c:237-282 | a whole size line or the part of it in this receive; always at least one byte further |
| `HttpChunkReader.ChunkReader.Copy` | external/miniupnpc/miniwget.c:283-305 | part of the data of a chunk goes to the content |
| `HttpChunkReader.ChunkReader.Feed` | external/miniupnpc/miniwget.c:232-307 | one receive goes through the decoder as through the automaton, and the loop ends |
| `HttpResponse.HeadersReceived` | external/miniupnpc/miniwget.c:112-228 | whatever the segmentation, the body is received as if it had come alone |
| `HttpResponse.ChunkedResponse` | external/miniupnpc/miniwget.c:112-346 | for all headers that announce chunked, every such list of chunks and every segmentation of headers and body, exactly the payload once complete and a beginning of it before, without a Content-Length or with one not short of the payload |
| `HttpResponse.ChunkedWithLengthIff` | external/miniupnpc/miniwget.c:338-345 | with a positive Content-Length beside, the payload is delivered for every segmentation exactly when that length is not short of it |
| `HttpResponse.PlainResponse` | external/miniupnpc/miniwget.c:308-346 | for every response that is not chunked and every segmentation, the first Content-Length bytes of the body when positive and everything up to the close otherwise |
| `HttpResponse.ChunkedAsDeclared` | external/miniupnpc/miniwget.c:201-346 | with clear header names, a Transfer-Encoding that says chunked and no Content-Length, the data of the chunks is delivered whatever the segmentation |
| `ReceivedXml.ChunkedDocument` | external/miniupnpc/miniwget.c:112-346 | at every point of a chunked response that carries a document, and for every segmentation, scanning what has been received makes a beginning of the document's callbacks, and all of them once it is complete |
| `ReceivedXml.PlainDocument` | external/miniupnpc/miniwget.c:308-346 | the same without chunked coding, with a Content-Length not short of the document or without one |
| `HttpResponse.PlainAsDeclared` | external/miniupnpc/miniwget.c:201-346 | with clear header names, a last Content-Length of n and no chunked coding, the first n bytes of the body are what is delivered, for every segmentation that brings that much, exactly when n is positive or there is no body |
| `HttpResponse.LengthDelivered` | external/miniupnpc/miniwget.c:308-346 | with a length of n announced, the first n bytes once they have come, and then the end, if n is positive; everything that has come, and no end, if it is 0 |
| `HttpExamples.ZeroLengthReadsOn` | external/miniupnpc/miniwget.c:308-346 | a Content-Length of 0 with "x" behind the headers delivers "x" |
| `HttpExamples.LengthCutsChunks` | external/miniupnpc/miniwget.c:338-345 | a chunked "ab" with a Content-Length of 1, cut between its bytes, is received as "a" |
| `HttpReceiver.Receiver.Plain` | external/miniupnpc/miniwget.c:308-336 | the part of a receive that belongs to a body of the announced length is added |
| `HttpReceiver.Receiver.OnHeaders` | external/miniupnpc/miniwget.c:114-228 | a receive before the end of the headers; what is left over fits the receive buffer |
| `HttpReceiver.Receiver.OnSegment` | external/miniupnpc/miniwget.c:112-346 | one receive takes the receiver where the specification goes |
| `HttpReceiver.GetHttpResponse` | external/miniupnpc/miniwget.c:67-356 | for every list of receives of 1 to 2048 bytes, the content of the specification |
| `HttpTestServer.BuildChunkedResponse` | external/miniupnpc/minihttptestserver.c:101-153 | for all results of rand, headers followed by an encoding of the content |
| `HttpTestServer.SizesDrawn` | external/miniupnpc/minihttptestserver.c:130-133 | with enough content left, the chunk sizes that can be drawn are exactly those from 1 to 199 |
| `HttpTestServer.FitsIff` | external/miniupnpc/minihttptestserver.c:109-150 | the response fits the buffer allocated for it, for all results of rand, exactly when the content has at most 36 bytes |
| `HttpTestServer.OnesDoNotFit` | external/miniupnpc/minihttptestserver.c:109-150 | a longer content in chunks of one byte each does not fit |
| `HttpTestServer.ServedContentComesBack` | external/miniupnpc/minihttptestserver.c:101-298 | whatever the content, the sizes drawn and the pieces written and received, the client returns the content |
| `Emission.Emit` | scripts/sumokoin_camel_emission_cal.cpp:14-80 | the loop ends, with the total between supply minus final subsidy and supply, at the state the steps reach |
| `Emission.EveryBlock` | scripts/sumokoin_camel_emission_cal.cpp:41-58 | every block of the run adds its reward, at least the final subsidy, without wrap-around and below the supply |
| `Emission.Refines` | scripts/sumokoin_camel_emission_cal.cpp:26-80 | at every height the loop reaches, the total is that of the recurrence over intervals, below the supply |
| `Emission.TotalGrows` | scripts/sumokoin_camel_emission_cal.cpp:28-58 | an interval adds its length times its reward, the genesis block excepted |
| `Emission.LaterIntervalFits` | scripts/sumokoin_camel_emission_cal.cpp:34-36 | a later interval takes less than what is left when it starts, unless its reward is the final subsidy |
| `Emission.RewardsFall` | scripts/sumokoin_camel_emission_cal.cpp:34-46 | after the early intervals a later reward is never above an earlier one |
| `Emission.EndsOnce` | scripts/sumokoin_camel_emission_cal.cpp:26-80 | two runs that stop do so at the same height |
| `Emission.SameReward` | scripts/sumokoin_camel_emission_cal.py:15-22 | for equal constants the Python reward, cut to a whole number, is the C++ reward |
| `Emission.CalculateEmissionSpeed` | scripts/sumokoin_camel_emission_cal.py:25-61 | the Python loop ends at the height and total of the same run |
| `EmissionConfig.ConfigValid` | src/cryptonote_config.h:141-144 | the interval is 262980 blocks and the peak eight intervals |
| `EmissionConfig.EarlyRewards` | scripts/sumokoin_camel_emission_cal.cpp:29-33 | the rewards of the nine early intervals |
| `EmissionConfig.TotalAfterPeak` | scripts/sumokoin_camel_emission_cal.cpp:26-58 | the coins generated when the early intervals are over |
| `EmissionConfig.ConfigRisesBelow` | src/cryptonote_config.h:58-61 | the configured constants meet the conditions of the safety results |
| `EmissionConfig.ScriptRisesBelow` | scripts/sumokoin_camel_emission_cal.py:3-12 | so do the constants of the Python script |
| `EmissionConfig.ScriptRewards` | scripts/sumokoin_camel_emission_cal.py:15-22 | the rewards of the nine early intervals with the constants of the Python script |
| `EmissionConfig.ScriptTotalAfterPeak` | scripts/sumokoin_camel_emission_cal.py:25-61 | the coins generated when they are over |
| `EmissionConfig.TailReward` | scripts/sumokoin_camel_emission_cal.cpp:34-46 | with less than 2^21 times four coins left, 2^19 times in the Python script, four coins a block are paid |
| `EmissionConfig.SpentReward` | scripts/sumokoin_camel_emission_cal.cpp:48-55 | with the supply spent, a share below four coins is replaced by two |
| `EmissionConfig.RisesThenFalls` | scripts/sumokoin_camel_emission_cal.cpp:28-46 | after the genesis block the reward rises strictly over the nine early intervals and never rises afterwards |
| `Wildcard.WildCardMatch` | external/easylogging++/easylogging++.h:1313-1335 | ends, and is true exactly when the text is cut into one piece for every character of the pattern |
| `Wildcard.Concatenation` | external/easylogging++/easylogging++.h:1313-1335 | a text matches two patterns in a row exactly when it can be cut in two to match each |
| `Wildcard.TwoStars` | external/easylogging++/easylogging++.h:1322-1327 | "**" means the same as "*" anywhere in a pattern |
| `Wildcard.First` | external/easylogging++/easylogging++.h:1315-1332 | the three cases of the switch are what the meaning of a pattern says about its first character |
| `LogLevels.FromPrefixIs` | external/easylogging++/easylogging++.h:617-635 | a text that starts with the name of a level, in either case, is read as that level |
| `LogLevels.NamesAre` | external/easylogging++/easylogging++.h:617-635 | the names of the eight levels, written out: a text is read as a level exactly when it starts with one of its two |
| `LogCategories.EntriesReadBack` | external/easylogging++/easylogging++.h:3878-3922 | for every list of entries with non-empty ':'- and ','-free names and known levels in either case, the text "name:LEVEL,..." is read back as the list, behind the pairs already there |
| `LogCategories.StandsAloneIff` | external/easylogging++/easylogging++.h:3899-3919 | a piece without commas stands alone, the text behind its comma being read as if it came first, exactly when it has both a name and a readable level or neither |
| `LogCategories.NameWithoutLevelRunsOn` | external/easylogging++/easylogging++.h:3899-3907 | "a,b:INFO" is read as the one category "ab" |
| `LogCategories.UnreadableLevelRunsOn` | external/easylogging++/easylogging++.h:3899-3919 | so is "a:x,b:INFO" |
| `LogCategories.LevelWithoutNameRunsOn` | external/easylogging++/easylogging++.h:3899-3919 | ":INFO,b" gives "b" the level |
| `LogCategories.Categories.SetCategories` | external/easylogging++/easylogging++.h:3878-3922 | the pairs are those of the text, on an empty list when clearing and behind the old ones otherwise; a null text adds none |
| `LogCategories.Categories.Allowed` | external/easylogging++/easylogging++.h:3954-3967 | true exactly when the last pair whose pattern matches the category permits the level; false when none matches |
| `LogCategories.PriorityIs` | external/easylogging++/easylogging++.h:3942-3952 | a pair permits a level exactly when the level is among those up to its own in the list Fatal, Error, Warning, Info, Debug, Verbose, Trace, and every level when its own is not in the list |
| `LogCategories.LaterPairsDecide` | external/easylogging++/easylogging++.h:3954-3967 | pairs added by a later call decide wherever one of them matches, earlier pairs only elsewhere |
| `LogConfig.RunOfCalls` | external/easylogging++/easylogging++.h:2636-2642 | over every run of calls, entries of a type stay unique by level, the first entry keeps its place, and every level has the value of the last call that reaches it |
| `LogConfig.SetUpdates` | external/easylogging++/easylogging++.h:2895-2931 | one call changes exactly the levels it reaches: its own, and from Global all but Unknown |
| `LogConfig.SetOthers` | external/easylogging++/easylogging++.h:2895-2905 | other types are left alone |
| `LogConfig.Configurations.PutValue` | external/easylogging++/easylogging++.h:2895-2901 | the first entry for level and type is replaced, or one is added at the end |
| `LogConfig.Configurations.UnsafeSetGlobally` | external/easylogging++/easylogging++.h:2922-2931 | all levels from Trace to Info in the order of forEachLevel |
| `LogConfig.Configurations.SetValue` | external/easylogging++/easylogging++.h:2636-2642 | the list after a call of set |
| `LogTyped.AgreesIff` | external/easylogging++/easylogging++.h:3072-3093 | a typed map says what the entries say exactly when Global has no entry or one with the value of the first entry |
| `LogTyped.AnswersLastIff` | external/easylogging++/easylogging++.h:3040-3134 | after a run of calls every level reached is answered with its last value exactly when Global was never set or the level of the first call ends with the value of Global |
| `LogTyped.GlobalFirstAnswersLast` | external/easylogging++/easylogging++.h:3040-3134 | when the first call of a type is for Global, every level but Unknown is answered with the value last set on it or on Global |
| `LogTyped.LastSetIs` | external/easylogging++/easylogging++.h:2636-2642 | the last value is that of a call that reaches the level with none after it that does |
| `LogTyped.FirstValueLost` | external/easylogging++/easylogging++.h:3074-3083 | setting Info, Global and Info again loses the value of Info |
| `LogTyped.UnknownKeepsItsValue` | external/easylogging++/easylogging++.h:2926-2930 | setting Global does not change what was set for Unknown |
| `LogTyped.BuildMap` | external/easylogging++/easylogging++.h:3095-3134 | the loop builds the map of the entries of its type in list order |
| `HitCounters.EveryNIff` | external/easylogging++/easylogging++.h:3302-3307 | for n at least 1, the k-th call fires exactly when n divides k, for all k, exactly when n is at most 100000 |
| `HitCounters.EveryNBeyondLimit` | external/easylogging++/easylogging++.h:3302-3307 | n = 100001 fires on every call from that one on, larger n never, and n = 0 never |
| `HitCounters.AfterNFires` | external/easylogging++/easylogging++.h:3365-3378 | the k-th call fires exactly when k is greater than n |
| `HitCounters.NTimesFires` | external/easylogging++/easylogging++.h:3382-3393 | the k-th call fires exactly when k is at most n, the count going round after 2^64 calls |
| `HitCounters.ResultIs` | external/easylogging++/easylogging++.h:3352-3393 | over every interleaving, a call fires as it would if its place were alone |
| `HitCounters.Interleaved` | external/easylogging++/easylogging++.h:3352-3393 | the three rules over every interleaving of calls from different places |
| `HitCounters.RegisteredHitCounters.Get` | external/easylogging++/easylogging++.h:2151-2164 | the counter of a place, registered at the end with 0 when there is none |
| `HitCounters.RegisteredHitCounters.ValidateEveryN` | external/easylogging++/easylogging++.h:3352-3361 | counter and result of one every-n call |
| `HitCounters.RegisteredHitCounters.ValidateAfterN` | external/easylogging++/easylogging++.h:3365-3378 | counter and result of one after-n call |
| `HitCounters.RegisteredHitCounters.ValidateNTimes` | external/easylogging++/easylogging++.h:3382-3393 | counter and result of one n-times call |

## Left out

- Sockets, polling, name resolution, connecting and sending: the network is a parameter.
- Memory allocation failure, and freeing of anything but gateway URL sets.
- HTTP status code and reason phrase: they do not influence the content.
- Response bodies of 2^31 bytes or more, where the signed and unsigned counters of `getHTTPResponse` disagree, and
  chunk sizes from 2^31 on, where its copy length is not defined; the model stops there with its own status.
- `atoi` on numbers beyond the range of `int`, which C leaves undefined; the model reads the number.
- Chunk trailers: the decoder never looks behind the last size line.
- HttpTestServer.BuildChunkedResponse: gives the response as a text; writing it into the buffer is not modelled, and
  `HttpTestServer.FitsIff` says when it fits.
- IgdDesc.DescriptionRead: for services that are not nested in one another; `IgdDesc.DescriptionSeen` covers the rest.
- Element names of a port listing that go on behind a NUL byte after a known name: there `memcmp` reads past the
  table's string, which C leaves undefined.
- The IPv6 scope that `build_absolute_url` can insert, and the LAN address `UPNP_GetValidIGD` reports.
- Linked lists are sequences from the head on, and registries of pointers are sequences of values: aliasing of entries
  is not modelled.
- LogTyped.BuildMap: builds the map of one type; the source fills the maps of all types in one loop.  File names, file
  streams, ToFile (forced to false when a file cannot be created), the level-independent types and the file size
  check after the loop are not modelled.
- Locks: every operation of the logging classes runs under one, so runs are sequences of whole operations.
- Rounding of `double` in the emission scripts: shares are exact reals.
- The tables the emission scripts print, verbose modules, log formats, dispatch, and the rest of Easylogging++.
- The SSDP discovery of `minissdpc.c`, the UPnP command wrappers, the command line and the language bindings of
  miniupnpc, and `contrib`: thin, I/O, or only easy members.
