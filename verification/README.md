# Backendify: a verified model

Backendify is an HTTP facade written in C++. It answers `/company` requests by asking the backend
of the requested country, caches the answers, and rests on a vendored copy of the cpp-httplib
header. This project models the stateful parts of both in Dafny and proves what they keep over
whole runs. `dafny verify dfyconfig.toml` checks all of it.

## What is modelled

* **Multipart form data.** The serializer and the incremental five-stage parser over its sliding
  buffer (`MultipartSpec`, `MultipartParser`). What a header line says, in any letter case and
  spacing, is in `MultipartHeaders`, what a header block says as a whole in `MultipartLines`. Parts
  with any header lines, fed in any chunks of which the first holds the opening line, have their
  items delivered, up to the first part whose lines are refused (`MultipartRoundTrip`); for
  arbitrary bytes the body goes out up to the first delimiter and not a byte further
  (`MultipartBody`); callbacks that refuse only cut things short (`MultipartRefusal`). The opening
  line is the exception: a first chunk too short for it is lost whole, and with it the first items
  (`MultipartLoss`).
* **Chunked transfer coding.** Writer, provider loop, line reader with its two-tier buffer, buffered
  socket, reader (`ChunkedWriter`, `ChunkedReader`, `LineReader`, `SocketStreams`, `OutStream`) and
  the round trip between them (`ChunkedSpec`, `ChunkedRoundTrip`), which holds exactly unless a call
  of the provider ends with a write of no bytes; and what else the reader takes or refuses
  (`ChunkedForms`).
* **The cache.** A value specification (`LruSpec`), the object with its value map, linked recency
  list and map of list nodes on the heap (`KeyList`, `InMemoryCache`), inclusion between caches of
  different capacity (`LruTheorems`), agreement with the history of calls (`LruHistory`), and which
  keys are held exactly (`LruExact`).
* **Byte ranges.** The header, printed and parsed (`RangeHeader`), which ranges are accepted, what
  they stand for and how much they can select (`Ranges`), the multipart answer whose length is
  announced before it is made (`MultipartRanges`), and that answer read by the library's own
  form-data parser (`RangesReadBack`).
* **Base64** with an accumulator that wraps around, against the decoder of RFC 4648 (`Base64`).
* **Percent coding and queries.** One encoder, the library's decoder and the facade's own
  (`PercentCoding`), other spellings of the same text (`PercentSpelling`), the two query parsers
  (`QueryStrings`), and the facade's on arbitrary queries (`QueryPieces`).
* **Path patterns**, compiled and matched (`PathParams`).
* **Protocols as step machines**: the client socket shared by threads (`ClientSocket`,
  `ClientImpl`) and when it is open (`ClientConnection`), the thread pool (`ThreadPool`), the server
  session (`ServerSession`, `HttpServerSession`) with the plan that every run of it follows
  (`SessionPlan`), and the server's set of sessions (`BeastHttpServer`).
* **Company requests**: from the query to the answer, through the cache and the backend, in any
  interleaving (`Configuration`, `CompanyReplies`, `Backendify`), which requests the cache answers
  (`CompanyHistory`), and what becomes of their connection (`CompanySession`).

A `char` stands for one byte. Code that works by updating objects is modelled by classes whose
methods are proved against functions on values; the theorems are about those functions and about
runs of them. What a run cannot control (sizes returned by `recv` and `send`, the clock, the order of
threads, completion results, what a callback answers) is chosen freely at every step.

## What the code does otherwise than it says

* `PathParamsMatcher` is written to refuse a parameter name that occurs twice, but the set it looks
  names up in is never filled. Such a pattern is accepted and the later capture is lost
  (`RepeatedNameLosesCapture`).
* A request to stop the client is forgotten by the next attempt to send, nested ones included
  (`ClosesWhenDoneIff`).
* The text between the parts of a multipart range answer is written once, so a short write makes the
  answer shorter than announced (`SentWholeIff`).
* A content provider's empty write ends a chunked transfer silently: the writer reports success and
  the last chunk is missing (`WrittenIsRead`, `EmptyWriteEndsEarly`).
* A reply whose JSON body is no object, or lacks a text where one is wanted, still counts as parsed
  (`ParsedIff`), because the success flag is set before the fields are read; the client then reads
  of an active company, without a name or although it is dissolved (`MisreadName`, `MisreadField`).
* An answer from the cache keeps the connection even when the request asked to close it
  (`CachedAnswerKeeps`).
* A range that asks for more of the last positions than there are is rejected, although section
  14.1.2 of RFC 9110 gives it the whole content; it is the only range selecting something that is
  (`RejectedThoughSelecting`).
* The facade's decoder is satisfied with one hexadecimal digit and swallows the character behind it,
  where the library's leaves such a percent sign alone (`FacadeTakesOneDigit`).
* The cache key of an unconfigured country text with a colon in it can be the key of another company
  of a configured country, and the cache is asked before the configuration (`ForeignCompany`).
* An exception while a reply is rendered leaves the session without a callback, so it hangs
  (`CallbackLost`, `LostHangs`).
* A maximum size of zero leaves the cache room for one entry (`LimitKeptIff`), and a maximum of zero
  queued responses makes the first answer ask an empty queue for its front (`FaultsIffNoRoom`).

## Model

| member | source | states |
|---|---|---|
| MultipartRoundTrip.RoundTrip | BackendServers/httplib.h:4964-5207 | Any non-empty list of parts with plain header lines and contents free of the delimiter, fed in any chunks whose first non-empty one holds the opening line, has the items of the parts in front of the first unreadable header block delivered in order; the verdict is success, and the parser valid, if and only if every block can be read |
| MultipartRoundTrip.RoundTripAmid | BackendServers/httplib.h:4996-5066 | Items whose own header lines stand among any number of other fields, anywhere, come back unchanged under every chunking |
| MultipartRoundTrip.SerializedRoundTrip | BackendServers/httplib.h:5246-5289 | What the serializer writes for any non-empty list of items comes back exactly, in order, and leaves the parser valid |
| MultipartRoundTrip.LineRefused | BackendServers/httplib.h:5013-5041 | At a header line that is refused the parser fails with the items before it delivered and the part not begun |
| MultipartRefusals.FeedCutShort | BackendServers/httplib.h:5002-5005 | For any input, what reaches callbacks is what would reach callbacks that take everything, up to and with the first event they refuse, at which the parser fails; if they refuse none nothing differs |
| MultipartRefusals.OddDelimiterStalls | BackendServers/httplib.h:5090-5106 | Behind a delimiter, anything but a line end or two hyphens is kept for ever: no complaint, no delivery, never valid |
| MultipartRefusals.LongLineIsRefused | BackendServers/httplib.h:4996-4998 | A first header line longer than the limit is refused in whatever chunks it arrives |
| MultipartRefusals.RefusedLineInvalidates | BackendServers/httplib.h:5013-5041 | A header line that is refused leaves the parser failed and invalid, whatever it was before, with nothing more delivered |
| MultipartLoss.RoundTripIff | BackendServers/httplib.h:4964-5207 | When no line inside a part ends like the opening line and all header blocks can be read, exactly the items come back if and only if the first non-empty chunk holds the opening line; otherwise the items from a later part on come back, or none, without complaint |
| MultipartLoss.OpeningAt | BackendServers/httplib.h:5246-5289 | Under that condition the opening line occurs only where a part begins, or at the very end |
| MultipartRoundTrip.ShortOpeningIsLost | BackendServers/httplib.h:4983-4990 | A first chunk too short for the opening line is lost whole: parsing goes on as if it had never been sent |
| MultipartRoundTrip.ShortChunksDeliverNothing | BackendServers/httplib.h:4983-4990 | A stream cut into chunks all shorter than the opening line is accepted throughout and nothing is ever delivered |
| MultipartRoundTrip.StepStands | BackendServers/httplib.h:4981-5108 | Each turn of the parsing loop keeps the correspondence: window plus bytes not yet fed is the text still to be understood, and what was delivered plus what the parts to come amount to is the whole; or else it has refused a part with just the items before it delivered |
| MultipartRoundTrip.HeadersFit | BackendServers/httplib.h:4996-4998 | With header lines of at most 8191 bytes the length limit never trips, wherever the stream is cut |
| MultipartRoundTrip.WrittenSections | BackendServers/httplib.h:5246-5289 | The text of the parts is the opening line followed by sections that each end in the next delimiter |
| MultipartHeaders.DispositionLineReads | BackendServers/httplib.h:4889-4911 | The disposition line written for a part is read back as its name and file name |
| MultipartHeaders.ContentTypeLineReads | BackendServers/httplib.h:5246-5262 | The content type line written for a part is read back and changes nothing else |
| MultipartHeaders.NameLineReads | BackendServers/httplib.h:5025-5058 | A disposition line, in any letter case and with any blanks, comes to what its parameters say and to nothing else |
| MultipartHeaders.PlainNameLineReads | BackendServers/httplib.h:5034-5043 | It sets the name, and the file name if it gives one, and leaves the other fields alone |
| MultipartHeaders.NamelessLineIsRefused | BackendServers/httplib.h:5034-5040 | Without a name it is refused |
| MultipartHeaders.ExtendedNameLineReads | BackendServers/httplib.h:5045-5058 | An extended file name in UTF-8 is decoded and takes the place of a plain one; in another encoding the line is refused |
| MultipartHeaders.BareReads | BackendServers/httplib.h:4889-4911 | A parameter without quotes is taken as it is, and a word alone has an empty value |
| MultipartHeaders.TypeLineReads | BackendServers/httplib.h:5019-5023 | A content type line, in any letter case and with any blanks, sets the type, trimmed, and nothing else |
| MultipartLines.OtherLineIsPassedOver | BackendServers/httplib.h:5013-5061 | A well-formed line of any other name is taken and changes no field |
| MultipartLines.OtherLinesDoNotMatter | BackendServers/httplib.h:4999-5063 | Wherever such lines stand in a header block, the block comes to what it would without them |
| MultipartLines.LineWithoutColonIsRefused | BackendServers/httplib.h:5013-5017 | A line without a colon is refused |
| MultipartBody.BodyStream | BackendServers/httplib.h:5067-5089 | For any bytes in any chunks, the content handed over is a prefix of the bytes before the first delimiter; if no callback refuses it is all of them once the delimiter has come, and until then all but a window no longer than a delimiter |
| MultipartBody.FeedKeepsBody | BackendServers/httplib.h:5067-5106 | Once a delimiter has closed a body, no later input adds to it |
| MultipartBody.RunWithoutDelimiter | BackendServers/httplib.h:5078-5086 | A window without the delimiter is handed over except for its last delimiter-length bytes |
| MultipartParsers.MultipartFormDataParser.Parse | BackendServers/httplib.h:4976-5111 | The object's parse loop over its buffer yields the state, the callbacks and the verdict of the specification |
| MultipartParsers.MultipartFormDataParser.HeadersStage | BackendServers/httplib.h:4996-5066 | The header stage handles every complete line in the window, the empty one included, as specified |
| MultipartParsers.MultipartFormDataParser.BodyStage | BackendServers/httplib.h:5067-5089 | The body stage hands over content and finds the delimiter as specified |
| MultipartParsers.MultipartFormDataParser.BufAppend | BackendServers/httplib.h:5184-5200 | Appending moves the window down or grows the buffer and loses nothing |
| MultipartParsers.MultipartFormDataParser.BufFind | BackendServers/httplib.h:5161-5182 | The search yields the first occurrence in the window, or its size |
| HeaderSyntax.ParseWellFormed | BackendServers/httplib.h:4276-4321 | A well-formed field line is taken apart into name and value, percent-decoded except for two fields |
| HeaderSyntax.ParsesIff | BackendServers/httplib.h:4276-4321 | A line with a colon is a field if and only if a name stands in front of the first colon and a value, apart from blanks, behind it; and those two, the value decoded except for two fields, are what it comes to |
| ChunkedWriters.WrittenIsRead | BackendServers/httplib.h:4704-4801 | What a provider writes over any number of calls is read back whole, trailers included and not a byte more, if and only if no call ends with an empty write; otherwise the writer still succeeds and the reader rejects the result |
| ChunkedWriters.EmptyWriteEndsEarly | BackendServers/httplib.h:4713-4735 | A provider of two calls whose transfer ends without the last chunk |
| ChunkedWriters.PerformedIs | BackendServers/httplib.h:4786-4801 | Which operations of a provider are carried out before the loop stops |
| ChunkedWriters.WriteContentChunked | BackendServers/httplib.h:4704-4801 | Unless the stream fails, exactly the operations performed are on the wire, and the verdict says whether the provider gave up |
| ChunkedWriters.DataSink.Write | BackendServers/httplib.h:4713-4735 | A non-empty write emits one chunk, an empty one nothing, and awaited data is recorded |
| ChunkedWriters.DataSink.DoneWithTrailer | BackendServers/httplib.h:4739-4778 | The last chunk and the trailer lines are emitted and the transfer is over |
| ChunkedWriters.FromIToHex | BackendServers/httplib.h:2736-2744 | The size text is the hexadecimal numeral |
| ChunkedRoundTrip.RoundTrip | BackendServers/httplib.h:4411-4475 | Everything written in non-empty chunks is read back with the trailers, and reading stops exactly at the end of the coding whatever follows |
| ChunkedRoundTrip.ChunkReads | BackendServers/httplib.h:4423-4441 | One chunk is read whole and nothing beyond it |
| ChunkedRoundTrip.TrailersRead | BackendServers/httplib.h:4457-4475 | Trailer lines are read back as the fields they were written for |
| ChunkedSpec.HexTextReads | BackendServers/httplib.h:2736-2744 | Reading the size text returns the size |
| ChunkedForms.AnySpellingReads | BackendServers/httplib.h:4411-4475 | Chunks with sizes in any hexadecimal spelling and with any extensions are read back whole, with the trailers, up to exactly their end |
| ChunkedForms.SizeReads | BackendServers/httplib.h:4425-4428 | A size line is read as its numeral says, whatever extension follows, and saturates |
| ChunkedForms.NegativeSizeReads | BackendServers/httplib.h:4425-4428 | A minus sign counts the size down from the end of the number range |
| ChunkedForms.LeadingSpaceIsSkipped | BackendServers/httplib.h:4425-4428 | White space in front of a size is skipped |
| ChunkedForms.OversizedIsRefused | BackendServers/httplib.h:4425-4428 | A size that does not fit is refused before anything is handed over |
| ChunkedForms.LineWithoutSizeIsRefused | BackendServers/httplib.h:4425-4427 | So is a size line without a number |
| ChunkedForms.UnendedChunkIsRefused | BackendServers/httplib.h:4432-4438 | A chunk longer than its size is handed over up to its size and then refused |
| ChunkedForms.BrokenChunkIsRefused | BackendServers/httplib.h:4432-4438 | A chunk that breaks off, or that nothing follows, is handed over as far as it goes and refused |
| ChunkedForms.MissingEndIsRefused | BackendServers/httplib.h:4422-4441 | A body without its last chunk is handed over and refused |
| ChunkedForms.EmptyLineMayBeMissing | BackendServers/httplib.h:4445-4472 | The empty line at the very end may be missing if and only if there are no trailers |
| ChunkedForms.LongTrailerIsRefused | BackendServers/httplib.h:4459-4460 | A trailer line over the limit fails the transfer |
| ChunkedForms.OddTrailerIsPassedOver | BackendServers/httplib.h:4462-4471 | A trailer line that is no field is passed over |
| ChunkedReaders.ReadContentChunked | BackendServers/httplib.h:4411-4475 | Verdict, content, trailers and the bytes left in the stream are those of the specification for any short reads; whatever fails or refuses, the content handed over is a first part of the specified one |
| ChunkedReaders.ReadContentWithLength | BackendServers/httplib.h:4362-4382 | Exactly the announced number of bytes is handed over, or everything there is when there are fewer |
| ChunkedReaders.ReadTrailerSection | BackendServers/httplib.h:4443-4475 | The trailer section is consumed up to its empty line and its fields recorded |
| LineReaders.StreamLineReader.GetLine | BackendServers/httplib.h:3061-3107 | For any buffer size a line is exactly the input up to the first CRLF, or up to the end of input |
| SocketStreams.SocketStream.Read | BackendServers/httplib.h:6101-6145 | The bytes returned, then the unread part of the buffer, then what the socket has still to give, are always the bytes sent: nothing is lost, doubled or reordered by buffering |
| OutStreams.OutStream.WriteData | BackendServers/httplib.h:4613-4621 | Short writes are resumed until everything is written in order, or the stream fails |
| LruTheorems.Inclusion | src/cache/InMemoryCache.cpp:12-151 | On the same trace a smaller cache is at every step contained in a larger one, with equal values and expiries, its recency list a subsequence of the other's |
| LruTheorems.LargerCacheHitsToo | src/cache/InMemoryCache.cpp:44-75 | Whatever the smaller cache answers, the larger one answers the same |
| LruTheorems.StoreIncluded | src/cache/InMemoryCache.cpp:12-42 | Storing keeps the inclusion, since the larger cache's lack of room never falls below the smaller's |
| LruHistory.HitIsLastWrite | src/cache/InMemoryCache.cpp:44-75 | A hit returns the value set last and not removed or cleared since, unexpired |
| LruHistory.SetHitsUntil | src/cache/InMemoryCache.cpp:12-20 | Right after a value is set it is found if and only if both readings of the clock are before the caller's time to live has passed, or the default one when that is not positive |
| LruHistory.StoredIsLastWrite | src/cache/InMemoryCache.cpp:12-116 | Every stored entry is the last write of its key |
| LruHistory.UnexpiredHits | src/cache/InMemoryCache.cpp:12-151 | An unexpired key hits as long as fewer distinct other keys than the capacity were set or hit since its own last touch |
| LruExact.HitsIffRecent | src/cache/InMemoryCache.cpp:12-151 | While nothing is removed and nothing expires, a key written hits if and only if fewer distinct other keys than the capacity were set or hit since its own last touch |
| LruExact.TouchedAreInFront | src/cache/InMemoryCache.cpp:12-75 | Under the same condition everything touched since a key was touched stands before it in the recency list |
| LruSpec.RunKeeps | src/cache/InMemoryCache.cpp:12-151 | In every run keys and recency list coincide, the list has no duplicates and the size stays within max(1, limit) |
| LruSpec.LimitKeptIff | src/cache/InMemoryCache.cpp:142-151 | The configured limit holds in every run if and only if it is positive |
| LruSpec.EvictOnce | src/cache/InMemoryCache.cpp:142-151 | Eviction drops the oldest key, once, exactly when the cache is full |
| InMemoryCaches.InMemoryCache.constructor | src/cache/InMemoryCache.cpp:9-10 | A new cache is empty and its three structures are in step |
| InMemoryCaches.InMemoryCache.Set | src/cache/InMemoryCache.cpp:12-42 | The object, its list nodes and its node map change as the specification says and stay in step |
| InMemoryCaches.InMemoryCache.Get | src/cache/InMemoryCache.cpp:44-75 | Result and new state are those of the specification, the hit key's own node moved to the front |
| InMemoryCaches.InMemoryCache.Remove | src/cache/InMemoryCache.cpp:77-98 | The key goes from all three structures, and the result tells whether it was there |
| InMemoryCaches.InMemoryCache.Clear | src/cache/InMemoryCache.cpp:100-108 | Everything goes |
| InMemoryCaches.InMemoryCache.Exists | src/cache/InMemoryCache.cpp:110-116 | The answer is that of a lookup, but recency is left alone |
| InMemoryCaches.InMemoryCache.RemoveExpired | src/cache/InMemoryCache.cpp:119-139 | Erasing while iterating removes exactly the expired entries, in any order of iteration |
| InMemoryCaches.InMemoryCache.EvictIfNeeded | src/cache/InMemoryCache.cpp:142-151 | Entries are dropped from the back of the list until there is room |
| KeyLists.KeyList.Erase | src/cache/InMemoryCache.cpp:22-25 | Unlinking a node by its iterator removes its position from the list and no other |
| KeyLists.KeyList.MoveToFront | src/cache/InMemoryCache.cpp:57-58 | Splicing moves a node to the front without invalidating any iterator |
| Ranges.RangeError | BackendServers/httplib.h:5291-5355 | A successful response with ranges is rejected if and only if its normalized ranges are not few, inside, ascending and overlapping at most twice; when accepted the ranges have been rewritten in place to the normalized ones |
| Ranges.NormalizeSelects | BackendServers/httplib.h:5307-5332 | A normalized range that lies inside stands for just the positions that section 14.1.2 of RFC 9110 gives the range asked for |
| Ranges.RejectedThoughSelecting | BackendServers/httplib.h:5316-5337 | A range that selects something is found outside if and only if it asks for more of the last positions than there are |
| RangeHeaders.MakeRangeHeader | BackendServers/httplib.h:5827-5839 | The printer's loop emits the ranges separated by commas, absent numbers left out |
| RangeHeaders.ParseRangeHeader | BackendServers/httplib.h:4914-4961 | The parser's loop over the pieces gives all ranges, or fails at the first piece that is none |
| RangeHeaders.PrintedIsRead | BackendServers/httplib.h:4914-4961 | The server reads back every list of ranges the client can print |
| RangeHeaders.ReadAgain | BackendServers/httplib.h:4914-4961 | Whatever header the server accepts, its ranges are in order and printing them and reading that gives the same ones |
| Ranges.OutputBound | BackendServers/httplib.h:5291-5355 | Accepted ranges never select more than three times the content |
| MultipartRanges.AnswerRanges | BackendServers/httplib.h:7141-7195 | Ranges accepted after normalization are cut out of the content, one by itself or several with their delimiters, no assertion on offset and length can fail, and the length a provider of that size announces is the length of that body |
| MultipartRanges.PartsFit | BackendServers/httplib.h:5381-5416 | Every content token of accepted ranges lies within the content |
| MultipartRanges.ContentRangeReads | BackendServers/httplib.h:5368-5379 | The numerals of the content range are the first and last position of the range and the length of the whole |
| RangesReadBack.AnswerIsWritten | BackendServers/httplib.h:5381-5432 | The answer to several ranges is, but for the line end of a message, a list of parts with the content type, the content range and the bytes asked for |
| RangesReadBack.RangesComeBack | BackendServers/httplib.h:5381-5432 | Fed to the library's form-data parser in any chunks of which the first holds the opening line, it comes back as one item for each range, in order, with the type and bytes asked for |
| MultipartRanges.Process | BackendServers/httplib.h:5381-5416 | The generator emits the parts in order, then the closing delimiter |
| MultipartRanges.MakeMultipartRangesData | BackendServers/httplib.h:5418-5432 | The body built is the rendering of the parts |
| MultipartRanges.GetMultipartRangesDataLength | BackendServers/httplib.h:5434-5450 | The announced length is the length of the body that would be built, for every content of that size |
| MultipartRanges.WriteMultipartRangesData | BackendServers/httplib.h:5452-5466 | Unless the stream fails, what goes out and the verdict are determined by what provider, server and stream do, and it is the body that would be built if and only if no text is taken in part and no content is given up or shut down |
| MultipartRanges.SentWholeIff | BackendServers/httplib.h:5452-5466 | What goes out is the whole body if and only if every text is taken at once and every content served; otherwise it is shorter than the length announced |
| MultipartRanges.FailsIffGivenUp | BackendServers/httplib.h:4623-4659 | Writing a content fails if and only if its provider gives up with something still to come; a shutdown does not make it fail |
| MultipartRanges.WriteContent | BackendServers/httplib.h:4623-4659 | Unless the stream fails, exactly the bytes provided until the end, a giving up or a shutdown go out in order, with the verdict |
| Base64.Encode | BackendServers/httplib.h:2780-2806 | Despite the wrapping accumulator the output is the encoding of section 4 of RFC 4648 |
| Base64.DecodeInvertsEncode | BackendServers/httplib.h:2780-2806 | The decoder of that section returns every input |
| Base64.EncodedLength | BackendServers/httplib.h:2780-2806 | Four characters for every three bytes begun |
| Base64.PushedBits | BackendServers/httplib.h:2790-2797 | Wrapping the accumulator never touches the bits that are still to be emitted |
| PercentCoding.EncodeQueryParam | BackendServers/httplib.h:2865-2884 | The encoder's loop emits the encoding, character by character |
| PercentCoding.EncodedIsPlain | BackendServers/httplib.h:2865-2884 | Encoded text holds only unreserved characters and percent signs |
| PercentSpelling.UnescapedAre | BackendServers/httplib.h:2865-2884 | Letters, digits and nine marks are written as they are, everything else in three characters |
| PercentCoding.DecodeUrlLoop | BackendServers/httplib.h:2918-2953 | The library's decoding loop with its index jumps computes the decoding |
| PercentCoding.DecodeInvertsEncode | BackendServers/httplib.h:2918-2953 | The library's decoder returns every encoded byte string |
| PercentCoding.UrlDecodeLoop | src/utils/Utils.hpp:380-399 | The facade's decoding loop computes its decoding, stream extraction of hexadecimal numbers included |
| PercentCoding.UrlDecodeInvertsEncode | src/utils/Utils.hpp:380-399 | The facade's decoder, too, returns every encoded byte string |
| PercentSpelling.AnySpellingIsRead | BackendServers/httplib.h:2918-2953 | The library reads any mixture of plain characters, pluses, digit pairs in either case and code points as what they stand for, a plus as a blank only in queries |
| PercentSpelling.FacadeReadsAnySpelling | src/utils/Utils.hpp:380-399 | The facade reads the same, code points excepted |
| PercentSpelling.CodePointsAreRead | BackendServers/httplib.h:2746-2778 | A code point is written in the shortest form that section 3 of RFC 3629 reads back as it, and a surrogate not at all |
| PercentSpelling.StrayPercentIsKept | BackendServers/httplib.h:2923-2944 | A percent sign that introduces nothing stands for itself in the library |
| PercentSpelling.FacadeTakesOneDigit | src/utils/Utils.hpp:384-391 | A percent sign with a single digit is decoded by the facade, the next character swallowed, and kept by the library |
| PercentSpelling.FacadeReadsOddly | src/utils/Utils.hpp:384-391 | Instead of a first digit the facade takes white space or a sign, a minus counting down from the end of the byte; a hexadecimal prefix without digits leaves the percent sign |
| QueryStrings.ParamsToQueryStr | BackendServers/httplib.h:4839-4849 | The printer's loop emits the pairs joined by ampersands |
| QueryStrings.LibraryReadsPrinted | BackendServers/httplib.h:4851-4872 | The library reads back exactly the printed list |
| QueryStrings.ParseCompanyQuery | src/core/Backendify.cpp:53-78 | The facade's query loop computes the scan of the query |
| QueryPieces.FacadeReadsPieces | src/core/Backendify.cpp:53-78 | On every query the one-pass loop reads what cutting at the ampersands, and each piece at its equals signs, says: the last two fields count, a name without an equals sign only at the end |
| QueryPieces.LibraryDividesAtFirst | BackendServers/httplib.h:4851-4872 | The library divides a piece at its first equals sign, and takes one without as a name with an empty value |
| QueryStrings.ParsersAgree | src/core/Backendify.cpp:53-82 | On printed lists with distinct, unreserved, non-empty keys both parsers look up the same value under every name, a missing one read as empty |
| PathParams.Compile | BackendServers/httplib.h:6210-6256 | The loop ends and reads the pattern without leftovers: fragments and names in turn give the pattern, no name holds a slash, no fragment hides a parameter |
| PathParams.CompiledIsUnique | BackendServers/httplib.h:6210-6256 | There is one way to read a pattern, so its matcher is determined |
| PathParams.Match | BackendServers/httplib.h:6258-6299 | The matching loop succeeds exactly when the path matches, and keeps the captures under their names |
| PathParams.MatchesIffSubstituted | BackendServers/httplib.h:6258-6299 | A path is matched with given captures if and only if they hold no slash and, put in place of the parameters, give the path up to one trailing slash |
| PathParams.PatternMatchesItself | BackendServers/httplib.h:6210-6299 | A compiled pattern matches its own text, every parameter capturing its own tag |
| PathParams.AssignKeepsFirst | BackendServers/httplib.h:6289-6292 | Every name keeps its first capture, so distinct names keep all, and no other name appears |
| PathParams.CapturesKeptIff | BackendServers/httplib.h:6289-6292 | Every capture can be looked up under its name, whatever is captured, if and only if the names are distinct |
| PathParams.RepeatedNameLosesCapture | BackendServers/httplib.h:6237-6248 | Whatever is compiled from a pattern with a repeated name keeps both names and loses the second capture |
| ClientSockets.AlwaysConsistent | BackendServers/httplib.h:7634-7731 | In every interleaving of nested sends, stops and early closes the count of requests in flight is the number of active calls, all of one thread, and every assertion holds |
| ClientSockets.OneThreadAtATime | BackendServers/httplib.h:7569-7586 | No two threads have requests in flight together, and none closes the socket under another |
| ClientSockets.StepConsistent | BackendServers/httplib.h:7624-7731 | Every critical section keeps the invariant |
| ClientSockets.StopIsHonoured | BackendServers/httplib.h:8912-8933 | After a stop the socket is closed as soon as nothing is in flight, as long as no further attempt begins |
| ClientSockets.ClosesWhenDoneIff | BackendServers/httplib.h:7634-7640 | In every run the order to close is in force if and only if some stop with a request in flight has been made since the last attempt began, however that attempt went |
| ClientSockets.StopHonouredIff | BackendServers/httplib.h:7704-7720 | A request that ends well and keeps its connection leaves the open socket closed if and only if such a stop stands |
| ClientSockets.NestedSendForgetsStop | BackendServers/httplib.h:7634-7640 | A nested send that finds the socket alive and succeeds leaves the client as it was, but for the order to close |
| ClientConnections.OpenIff | BackendServers/httplib.h:7634-7731 | In every run the socket is open, and so many requests in flight, as told by the events alone: beginnings, ends, early closes and stops |
| ClientConnections.FinishClosesIff | BackendServers/httplib.h:7704-7720 | The end of a request leaves the open socket closed if and only if a stop stands, the connection is to be closed, or the request failed |
| ClientConnections.ClosedStaysClosed | BackendServers/httplib.h:7634-7683 | A closed socket stays closed until a later attempt connects |
| ClientConnections.NoneClosesUnderAnother | BackendServers/httplib.h:7569-7586 | In every run a step that closes the open socket is taken by the only thread with a request in flight, or while there is none |
| ClientConnections.ClosingIsChecked | BackendServers/httplib.h:7569-7586 | A step that closed the socket under another thread, or counted below zero, would fail the program's assertions |
| ClientConnections.BeginSendsIff | BackendServers/httplib.h:7634-7694 | An attempt sends if and only if the socket is alive or can be connected, and otherwise leaves it closed |
| ClientConnections.TriesAgainIff | BackendServers/httplib.h:7624-7632 | A second attempt follows exactly a first one whose peer had closed the connection |
| ClientConnections.AtMostTwoAttempts | BackendServers/httplib.h:7624-7632 | No call of send makes more than two attempts |
| ClientImpls.ClientImpl.SendBegins | BackendServers/httplib.h:7634-7694 | The first critical section of a send, dead sockets and failed connections included, takes the step specified, and its assertions hold |
| ClientImpls.ClientImpl.SendFinishes | BackendServers/httplib.h:7704-7720 | The scope exit of a send takes the step specified, and its assertions hold |
| ClientImpls.ClientImpl.ClosesEarly | BackendServers/httplib.h:7769-7783 | Closing while a response is handled is allowed to the thread that handles it |
| ClientImpls.ClientImpl.StopClient | BackendServers/httplib.h:8912-8933 | A stop closes an idle socket and otherwise only leaves word |
| ThreadPools.AlwaysSound | BackendServers/httplib.h:773-855 | In every interleaving jobs leave the queue in order, none twice and none lost, each one taken is finished or run by exactly one worker, and the limit is kept |
| ThreadPools.ShutdownDrains | BackendServers/httplib.h:799-834 | When the last worker exits, every job accepted until then has been run |
| ThreadPools.NothingStartsAfterwards | BackendServers/httplib.h:786-834 | Jobs accepted after that are never started |
| ThreadPools.UnlimitedTakesAll | BackendServers/httplib.h:786-797 | A pool without a limit accepts every job offered, in order |
| ThreadPools.TurnedAwayIffFull | BackendServers/httplib.h:786-797 | A job is turned away, and nothing changes, if and only if as many jobs as the limit have been accepted and not yet taken |
| ThreadPools.WakeDecides | BackendServers/httplib.h:810-833 | A waiting worker goes on exactly when a job is left or a shutdown has been asked for, takes the oldest job left, and leaves when there is none |
| ThreadPools.ThreadPool.EnqueueJob | BackendServers/httplib.h:786-797 | A job is appended, or refused when the queue is limited and full |
| ThreadPools.ThreadPool.TakeOrExit | BackendServers/httplib.h:818-833 | A worker takes the front job, or leaves, and leaves only when the pool shuts down |
| ThreadPools.ThreadPool.ShutDown | BackendServers/httplib.h:799-806 | Shutting down sets the flag and drops no job |
| ServerSessions.AlwaysSound | src/core/HttpServerSession.hpp:133-340 | Every handler, in every order of completions, timers and stops, keeps the session's invariant |
| ServerSessions.OneOperation | src/core/HttpServerSession.hpp:133-340 | A session has exactly one start, read, backend call or write under way until it finishes or loses a callback, none after; it is reported finished at most once |
| ServerSessions.RequestsAreConserved | src/core/HttpServerSession.cpp:61-109 | Requests read are those written, dropped, discarded at a close, under way, lost to an exception, or left in the queue by a stop; each result is handed over exactly once |
| ServerSessions.AnswersInOrder | src/core/HttpServerSession.cpp:61-109 | Answers go out in the order of their requests, none twice |
| ServerSessions.QueueIsEmptyAtHandOver | src/core/HttpServerSession.cpp:65-82 | Whenever a result is handed over the queue is empty and nothing is being written, so the branch for a full queue is unreachable for a maximum of one or more |
| ServerSessions.FullQueueDropsOldest | src/core/HttpServerSession.cpp:65-82 | Of that branch: an answer for which there is no room pushes out the oldest, be it the one being written |
| ServerSessions.FaultsIffNoRoom | src/core/HttpServerSession.cpp:65-82 | The front of an empty queue is asked for if and only if the maximum is zero |
| ServerSessions.LostHangs | src/core/Backendify.cpp:143-186 | After an exception in place of a callback the session never finishes |
| ServerSessions.CallbackLost | src/core/Backendify.cpp:150-163 | A run from a fresh session to the state in which a callback is lost |
| ServerSessions.StopAbandonsAnAnswer | src/core/HttpServerSession.hpp:247-307 | In every run the end of a write leaves its answer in the queue of the finished session if and only if a stop has come before; otherwise the answer is written, or discarded when the write failed |
| ServerSessions.AnswerAbandoned | src/core/HttpServerSession.hpp:104-130 | A run in which a stop during the write leaves the answer behind |
| ServerSessions.WriteEndedKeepsSound | src/core/HttpServerSession.hpp:247-307 | The end of a write, with all its branches, keeps the invariant |
| SessionPlans.PlanFollowed | src/core/HttpServerSession.hpp:133-340 | Every run follows the plan: what the session is doing, its socket, and what its call and its answer carry about keeping the connection, which is what was settled when the last request was read |
| SessionPlans.PossibleIffPlanned | src/core/HttpServerSession.hpp:133-340 | A handler is due exactly when the plan says so, and the end of a timer when one is running: one for each write, ended once |
| SessionPlans.KeepAliveDecides | src/core/HttpServerSession.hpp:247-307 | After a write the next request is read if and only if the write went well, no stop has come and the answer says to keep the connection, as settled when its request was read; otherwise the session finishes |
| SessionPlans.DropDecides | src/core/HttpServerSession.cpp:84-109 | After a dropped request the next is read if and only if the drop says to keep the connection |
| SessionPlans.AnswerDecides | src/core/HttpServerSession.cpp:61-82 | An answer found at once is written while the socket is open and discarded, the session finished, otherwise |
| SessionPlans.CallIsAnswered | src/core/HttpServerSession.cpp:61-82 | A backend call is answered at its first failure or with its reply, under its request's number and with what was settled for it |
| HttpServerSessions.HttpServerSession.SendResponse | src/core/HttpServerSession.cpp:61-109 | Queueing, overflow, dropping, and going on to read, write or close are as specified |
| HttpServerSessions.HttpServerSession.OnWrite | src/core/HttpServerSession.hpp:247-307 | The end of a write: the answer leaves the queue, and the next write, the next read or the close follows as specified |
| HttpServerSessions.HttpServerSession.Run | src/core/HttpServerSession.hpp:93-340 | The object runs any handler that is due and keeps the invariant |
| BeastHttpServers.ActiveAreTheUnfinished | src/core/BeastHttpServer.cpp:13-66 | The active set holds exactly the sessions whose finish callback has not run, except those a stop took out; no callback runs twice, and as many miss their session as were taken out before |
| BeastHttpServers.EachRunsAlone | src/core/BeastHttpServer.cpp:13-66 | Whatever happens to the others, each session of the server goes through a run of its own, so what is proved of every run holds of it |
| BeastHttpServers.AlwaysReady | src/core/BeastHttpServer.hpp:77-92 | A connection can be accepted and the server stopped at any time |
| BeastHttpServers.BeastHttpServer.OnAccept | src/core/BeastHttpServer.cpp:13-51 | An accepted connection becomes a fresh session in the set |
| BeastHttpServers.BeastHttpServer.OnSessionFinish | src/core/BeastHttpServer.cpp:53-66 | A finished session leaves the set, and the result tells whether it was there |
| BeastHttpServers.BeastHttpServer.StopServer | src/core/BeastHttpServer.hpp:77-92 | Every active session is stopped, in any order, and the set is emptied |
| Configuration.LoadBackends | src/utils/Utils.hpp:182-206 | The country map holds for each country the URL of its last acceptable argument, and nothing else |
| Configuration.CountriesAreTwoLetters | src/utils/Utils.hpp:187-191 | Every configured country is two upper-case letters |
| Configuration.LettersAreLoaded | src/utils/Utils.hpp:182-206 | Any two letters in either case with an acceptable URL configure the country of that code in upper case |
| CompanyReplies.ParseBackendResponse | src/core/Backendify.cpp:309-355 | Parsing, with exceptions that end it midway, fills in what the specification says |
| CompanyReplies.ParsedIff | src/core/Backendify.cpp:309-355 | A reply counts as parsed if and only if its body is JSON of any kind under one of the two content types |
| CompanyReplies.RenderedV1 | src/core/Backendify.cpp:357-374 | Of a reply in the first format the client reads the name, whether the company has been created and not yet closed, and the date of closing; a date that cannot be compared leaves nothing to send |
| CompanyReplies.RenderedV2 | src/core/Backendify.cpp:376-388 | Of one in the second format, the name, whether the company is not yet dissolved, and that date |
| CompanyReplies.MisreadName | src/core/Backendify.cpp:320-337 | A reply that is no object, or whose name is no text, is rendered as an active company without a name |
| CompanyReplies.MisreadField | src/core/Backendify.cpp:323-337 | A reply whose date of creation, or tax number, is no text is rendered as an active company, although it may say that it is closed or dissolved |
| CompanyRequests.Backendify.ProcessCompanyRequest | src/core/Backendify.cpp:33-138 | Query, validation, cache, lateness, configuration and circuit breaker, in this order, decide the outcome and the cache |
| CompanyRequests.Backendify.OnBackendReply | src/core/Backendify.cpp:139-187 | The completion handler's answer and cache update are as specified for every ending |
| CompanyRequests.AnswersAreBackedUp | src/core/Backendify.cpp:94-187 | In every interleaving an answer 200 is the rendering of a parsed 200 reply from the backend configured for a country, asked for a company by its path; these are the company and country requested if and only if the country text holds no colon, in particular whenever it is configured |
| CompanyRequests.KeysApart | src/core/Backendify.cpp:94-98 | Cache keys tell company and country apart for two-letter countries; another text collides with one of those only if it holds a colon |
| CompanyRequests.AlwaysSourced | src/core/Backendify.cpp:94-187 | Every cached text and every answer 200 has its source among the replies heard |
| CompanyRequests.LoadedCountriesAreCodes | src/utils/Utils.hpp:187-198 | The countries loaded from the command line are two-letter codes |
| CompanyRequests.ForeignCompany | src/core/Backendify.cpp:227-243 | A country text that is configured nowhere, if it ends in a colon and a configured country, is answered from that country's cache |
| CompanySessions.CachedAnswerKeeps | src/core/Backendify.cpp:227-243 | After a request answered at once and written well the next one is read if and only if it asked to keep the connection or was answered from the cache |
| CompanyHistory.NamedReads | src/core/Backendify.cpp:79-85 | A printed query names the company under id and the country, in upper case, under country_iso |
| CompanyHistory.RequestDecides | src/core/Backendify.cpp:87-138 | A request makes a call exactly when it is whole, uncached, in time, configured and not tripped; otherwise it is answered at once with the status of the first of these that fails, or dropped |
| CompanyHistory.EndingDecides | src/core/Backendify.cpp:139-187 | A call that ends is answered 200 with a text if and only if the reply gives that text, and otherwise with its own status, or not at all when rendering throws |
| CompanyHistory.CacheIsTraced | src/core/Backendify.cpp:94-165 | The cache of a run is the cache after the lookups of its requests and the texts its replies gave |
| CompanyHistory.AnsweredAgain | src/core/Backendify.cpp:94-98 | Once a reply has given a text, requests for the same company within a day are answered with the last such text and no call, as long as fewer other keys than the cache holds were given or answered since |
| CompanyHistory.AnsweredRightAfter | src/core/Backendify.cpp:164 | Right after a text is given the same company is answered with it if and only if both readings of the clock are within a day |
| CompanyHistory.AnsweredFromCacheIsLast | src/core/Backendify.cpp:227-243 | Whatever a request is answered from the cache is the text given last for its key, less than a day ago |

## Left out

- Input and output proper: sockets, name resolution, TLS, compression (the compressor is the one that copies), memory-mapped files, regular expressions, the JSON library, logging, Redis and StatsD. `recv` and `send` results are arbitrary within their contracts; JSON parsing and printing, URL parsing and the reading of timestamps are function parameters; the expression for Content-Disposition is a prefix match up to case.
- MultipartLoss.RoundTripIff: when a line inside a part does end like the opening line, only the direction of RoundTrip is stated; what a lost opening then leads to is what ShortOpeningIsLost says. Epilogues other than CRLF that arrive later, limits on the number or size of files, and the receivers that collect items into maps belong to callers.
- MultipartRanges.WriteContent: a call of the provider hands over bytes of the content from the offset asked for, and at most as many as asked for; a stream takes at least one byte of a text.
- Ranges.RangeError: offsets are unbounded integers, where the source has 64 bits.
- Base64.Encode: the accumulator is a 32-bit two's complement word that wraps; the C++ standard before C++20 leaves such shifts of negative words undefined.
- ChunkedReaders.ReadContentChunked: a trailer line shorter than two bytes, possible only at the end of input, is treated as no field; in the source its end lies before its beginning.
- ChunkedWriters.WriteContentChunked: the end of the list of calls stands for the server shutting down; compression is the copying one.
- Splitting, trimming, taking field lines apart and reading numbers are helpers on values, without the pointers they move in the source.
- PathParams.Match: a pattern with NUL bytes is matched with `strncmp`, which stops there; the contract speaks of patterns without them.
- InMemoryCaches.InMemoryCache.Get: the mutex is not modelled, every public call being one critical section; clock readings are unbounded integers.
- ClientSockets.AlwaysConsistent: the destructor closing a socket with a request in flight, and TLS set-up other than by its result, are left out.
- ThreadPools.AlwaysSound: only the turns under the mutex are steps; condition variables are modelled by their predicates, so spurious wake-ups have no effect.
- ServerSessions.AlwaysSound: handlers run one at a time, as the connection's strand arranges; backend completions run on another strand in the source, and the races this admits with `stop` and the timer are not modelled. The keep-alive flag of a dropped request is arbitrary because the request has been moved from. A timer ends by expiry or cancellation; the backend's own timer does nothing in either case and is left out. Timeouts of the stream are failed operations.
- HttpServerSessions.HttpServerSession.Run: routing by method and path decides the outcome outside this model; an exception thrown by the answering callback itself, which `processCompanyRequest` would catch and answer a second time, is left out.
- CompanyRequests.Backendify.ProcessCompanyRequest: the circuit breaker is a truth value at each request; the set of active client sessions, which never shrinks because its weak pointers are never set, is left out; a failing rendering is an exception without an answer.
- CompanyRequests.AnswersAreBackedUp: nothing is said about the freshness of the cached `active` flag.
- BeastHttpServers.BeastHttpServer.OnAccept: failed accepts, and connections accepted after a stop, are not treated specially.
- File serving, routing, the `Client` wrappers, the status page, circuit breaker timing and configuration files would only add easy members.
