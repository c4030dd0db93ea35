# PKG Manager X: a verified model of its package delivery

PKG Manager X installs console packages from discs, USB drives and HTTP servers. An installer asks for arbitrary byte
ranges of a package and must get exactly those bytes, whatever the network, the server and the user do meanwhile. This
project models the parts of the daemon that this rests on, and proves what they promise.

| file | modules | what it models |
|---|---|---|
| text.dfy, quoted.dfy, arith.dfy | Text, Quoted, Arith | C strings and number scanners; quoted strings inside a larger text; quotients |
| http_framing.dfy, http_wire.dfy | HttpFraming, HttpWire | HTTP/1.1 response framing as read by the client and as written by a server |
| http_events.dfy, http_lines.dfy | HttpEvents, HttpLines | what the line, head and body readers make of a connection whose receives may fail anywhere and be followed by more data, stale line buffers included |
| http_conn.dfy | HttpConn | one connection: receive buffer, line and block readers, response and body readers |
| http_reads.dfy | HttpReads | on any bytes: up to the first failed receive those readers compute what the framing says |
| http_faults.dfy, body_faults.dfy, trailer_faults.dfy | HttpFaults, BodyFaults, TrailerFaults | on any response and any failing receives: when it is read as it was sent, when the connection is given up, and where the reader ends |
| cut_lines.dfy | CutLines | the responses that are misread: a receive times out inside a line and the rest of it arrives |
| http_limits.dfy, http_client.dfy | HttpLimits, HttpClient | connection slots, `fetch_on`, redirects, the range probe |
| http_session.dfy | HttpSession | a streaming session: pool, half-consumed response, expiring links, retries |
| conn_slots.dfy | ConnSlots | the slot counter under any interleaving of threads |
| url.dfy | Url, Percent | URL parsing, printing and resolution; percent-encoding |
| file_state.dfy | FileState | the 8192-slot table of per-file state |
| json.dfy, source_config.dfy | Json, SourceConfig | the JSON helpers; sanitizing, saving and loading sources |
| crawl.dfy | Crawl | package discovery: catalog, index file, recursive listings |
| civil_date.dfy | CivilDate | civil dates and HTTP dates |
| multipart.dfy, assemble.dfy | PartFormat, Drives, VirtualStream, Assembler | multi-part packages: streamed across disc swaps, and assembled into one file |
| install_queue.dfy | InstallQueue, QueueHandoff | the install queue and its hand-over between threads |
| pkg_cache.dfy | PkgCache | the cache record: printed, and read back |
| version.dfy | Version | version strings and the search for the installed version |
| helper_ipc.dfy | IpcTransfer, InstallHelper, InstallService | the transfer loop over the kernel's turns, the helper process at one end and its client at the other |
| blurhash.dfy | BlurHash | base-83 packing and the box downscale |

Model files, the server, the kernel's sockets, the clock, the user and the console's own calls are environments: classes
whose methods choose their results freely within a stated contract (`Conn.ReadRaw`, `Net.Open`, `Net.Send`, `Clock`,
`Library`, `Disk`, `Output`, `System`), or parameters that range over everything (the kernel's `turns` of a `Socket`).
The server in `HttpClient` answers anything that is a well-formed message; only its 206 answers have to carry the bytes of
the file they name, as section 4.1 of RFC 7233 has it. Its answer arrives in any pieces, receives may fail anywhere in
between and be followed by more data (the 30 s receive timeout of src/http_source.c:1053-1055), and the answer may end
early. Two assumptions are stated as predicates: `Session.Honest` (a link that serves a file of the expected size serves
the expected file, which is all `session_refresh` checks) and `PartFormat.IsPart` (a file handed out as part k is part k).

The HTTP results hold unless an answer was *torn*: a receive failed inside one of its lines and more of the answer came
afterwards (`BodyFaults.Intact` lists the positions). The ghost counter `Net.tears` counts such
answers, and nothing in the client or a session may blame a tear that has not been counted (`Blames`, `Session.base`), so
`HttpSession.ReadThrough` speaks of every history in which the counter has not moved. That the exception is needed is shown
in `CutLines`, on well-formed responses with one failed receive. How many connections, how large a pool and how large a
buffer there are differs between the two consoles and is a parameter (`HttpLimits`).

## What the proofs turned up

Where the code falls short of what it is for, the code is modelled as it is, an example shows the failure, and the exact
condition under which the promise is kept is proved.

- A queued start that is answered -2 goes back to the queue in a separate lock step. If the install that refused it ends
  in between, the entry waits for ever (`QueueHandoff.StrandedExample`); that is the only way to strand one
  (`StrandedExactly`). Such an entry can also be dropped when the queue has filled up, and overtake or duplicate others.
- `conn_read_line` returns what it has when a receive times out inside a line, and its callers take that for the line. In
  the blank line behind a head, the body is read one byte early, with success, and its last byte stays on a connection that
  goes back to the pool (`CutLines.BlankLineCut`, for any response of declared length; `ReadsEarly` makes the two calls). In
  the line end behind a chunk, the body is taken to end there (`ChunkEndCut`, for any chunk). Between two digits of
  `Content-Length`, the rest of the body stays on the connection (`LengthCut`). When no receive fails at such a place, the
  outcome is the fault-free one or the connection is given up (`BodyFaults.HeadRightly`, `BodyScanned`). Where the loops
  over header and trailer lines stop is known exactly for all failing receives (`TrailerFaults`).
- The loop that skips a chunked body's trailer section does not look at how its last read ended. A receive that times out
  in front of the blank line leaves that line for the next response on a connection that stays in the pool
  (`TrailerFaults.TimeoutExample`); `TrailerBoundary` says for which timeouts this happens.
- A host that starts with `[` and contains no `:` (from `http://[[x]/`) does not survive printing
  (`Url.BracketHostExample`); all others do (`UrlRoundTrip`).
- `virtual_stream_read` and the assembler disagree about an icon behind the header of a later part, and about icons of
  10 MiB and more (`PartFormat.StartsDiffer`, `StartsAgree`).
- `app_info_compare_versions` subtracts 32-bit numbers; with a negative number the result can have the wrong sign
  (`Version.OverflowExample`, `CompareExactly`). A version without text behind its `v` normalizes to `v1.00`, which
  compares differently (`SameVersion`).
- `install_service_status` does not look at `usable`, so it goes on after a failed exchange. When a reply was late, the next
  status request accepts it (`InstallService.StaleReply`). When only the beginning of a request was sent, the next status
  request accepts the helper's answer to that beginning followed by its own (`CutRequest`). Both are runs of two calls
  over a slow kernel. After any history the next request and the reply in line belong together exactly when no
  request was cut while being sent and no reply while being received (`AlignedExactly`, `AnsweredExactly`); rejected
  replies, and requests of which nothing was sent, do no harm.
- `installer_enqueue` compares with the path in the status record even when that install is over, so such a request is
  answered "queued" and forgotten (`QueueHandoff.ForgottenExample`); all other requests that are answered "queued" wait or
  are being installed (`QueuedExactly`, `QueuedKept`).
- The assembler ignores the result of the last `fclose`: it reports success although the end of the package may not be in
  the file. It is there exactly if that flush went well (`Assembler.Assemble`).
- A label derived from a URL with white space may change when the source is sanitized again
  (`SourceConfig.UnstableLabel`); `SanitizeTwice` says when.
- `json_escape` cuts strings of many control characters short (`SourceConfig.CutShort`); `ParseRoundTrip` is exact about
  it. In the cache record control characters (`PkgCache.ControlLost`) and, in the two unescaped fields, quotes and
  backslashes are lost; `PkgCache.RoundTrip` is exact about both.
- `parse_http_date` gives 0 for a date behind the 32-bit range, which then counts as the earliest (`CivilDate.DatesOrdered`).

## Model

| member | source | states |
|---|---|---|
| HttpWire.HeadRead | src/http_source.c:1350-1404 | the head of every well-formed response is read back as the record its fields describe, interim 1xx responses skipped, with the reader left exactly at the body |
| HttpWire.ChunksRead | src/http_source.c:1433-1450 | a chunked body decodes to the concatenation of its chunks and its trailer section is consumed with it; a body over the limit is refused |
| HttpWire.BodyRead | src/http_source.c:1408-1498 | for length-framed, chunked and close-delimited bodies the reader returns the sent body and leaves what follows untouched (RFC 7230 section 3.3.3) |
| HttpWire.RangeScanned | src/http_source.c:1391-1400 | a printed Content-Range triple is scanned back to the same three numbers |
| HttpWire.FieldApplied | src/http_source.c:1371-1401 | every header field is read as what it means, whatever the record held before |
| HttpWire.NextLineWire | src/http_source.c:1256-1268 | a line is read back from its wire form, cut to the buffer, with the reader behind its line feed |
| HttpConn.Conn.ReadRaw | src/http_source.c:1228-1242 | a receive hands over between one byte and the room there is, in order, or fails; a failure takes nothing and need not be the last word |
| HttpConn.Conn.GetC | src/http_source.c:1244-1252 | one byte of the remaining stream (buffered bytes, then the wire), however the transport splits it |
| HttpConn.Conn.ReadLine | src/http_source.c:1256-1268 | the line reader with its buffer: the line up to its line feed, cut to the buffer; what has come so far, without terminator, when a receive fails inside the line; -1 when it fails in front of it; and what remains |
| HttpConn.Conn.ReadExact | src/http_source.c:1270-1287 | exactly the next len bytes, buffered ones first, with nothing lost or read twice, or failure when a receive fails before |
| HttpConn.Conn.ReadCounted | src/http_source.c:1443-1459 | n bytes taken in blocks are the next n bytes of the stream, whether kept or drained |
| HttpConn.Conn.ReadResponse | src/http_source.c:1350-1404 | the buffered reader yields exactly what the head function makes of the connection's events, and leaves exactly its rest |
| HttpConn.Conn.ReadChunked | src/http_source.c:1433-1450 | the chunk loop refines the chunk function over any events, failed receives inside size lines, chunk ends and trailers included |
| HttpConn.Conn.ReadBody | src/http_source.c:1408-1498 | result, body, what is left and whether the connection stays alive are those of the body function, for all four framings and any failing receives |
| HttpConn.Conn.ReadToEnd | src/http_source.c:1460-1476 | a close-delimited body is everything the connection delivers before a receive fails, refused beyond the limit, and the connection is given up |
| HttpLines.LineRead | src/http_source.c:1256-1268 | on any events: the line up to its line feed, or what came before the failed receive, laid over what the buffer held |
| HttpReads.HeadComplete | src/http_source.c:1350-1404 | on any bytes, well-formed or not: a head that ends in front of the first failed receive is the one the parser finds, with the reader right behind it, and a malformed one is refused |
| HttpReads.ChunksComplete | src/http_source.c:1433-1450 | on any bytes: chunks that are there in full in front of the first failed receive are decoded as the framing says |
| HttpReads.BodyComplete | src/http_source.c:1408-1498 | the same for the body behind any head; a lost body was not there in full |
| HttpFaults.HeadScanned | src/http_source.c:1350-1404 | the head of any response whose receives fail in front of its lines, inside its blank line or for good, exactly: read as it was sent if all of it comes first, with its last line feed still ahead if only that is missing, and given up otherwise |
| BodyFaults.HeadRightly | src/http_source.c:1350-1404 | when no receive fails inside a line with more data behind it, the head is the one sent, with the whole body ahead, or no head; and it is read if it has come |
| BodyFaults.ChunksScanned | src/http_source.c:1433-1450 | when no receive fails inside a size line, a chunk end, the last-chunk line or at a line's edge in the trailers with more data behind it, the chunks' data and nothing left, or refused when too long, or the connection is given up |
| BodyFaults.BodyScanned | src/http_source.c:1408-1498 | the same for the body of any response, by its framing |
| CutLines.BlankLineCut | src/http_source.c:1256-1268 | for any response of declared length: a receive that fails inside its blank line makes the body begin with the line feed and leaves the last byte ahead, with success |
| CutLines.ReadsEarly | src/http_source.c:1256-1268 | the two readers, called on a connection that faces such a response, return success with those bytes, and the connection is alive with one byte of the answer ahead |
| CutLines.ChunkEndCut | src/http_source.c:1433-1450 | for any chunks: a receive that fails inside the line end behind the last one read makes the body end there, with success |
| CutLines.LengthCut | src/http_source.c:1371-1380 | for any declared length: in a well-formed response with that header line a receive that fails between two of its digits makes the digits read so far the length, and the rest of the body stays ahead |
| HttpClient.Net.Open | src/http_source.c:1164-1204 | opening takes one slot and every failure on the way gives it back |
| HttpClient.Net.SlotAcquire | src/http_source.c:918-933 | a slot is granted exactly while fewer than the maximum are in use (the wait is in ConnSlots) |
| HttpClient.Net.Send | src/http_source.c:1311-1348 | any answer of a conforming server, in any pieces and with any failing receives, lies ahead; it counts as torn exactly when a receive fails inside a line of it with more behind |
| HttpClient.Net.Close | src/http_source.c:963-976 | closing gives back exactly one slot; the counter equals the connections open or being opened |
| HttpClient.ReadRange | src/http_source.c:1543-1572 | a 206 puts the requested slice of the file into the caller's buffer; the connection is at a message boundary or given up |
| HttpClient.Exchange | src/http_source.c:1531-1585 | one request and answer on a connection at a boundary leaves it at a boundary if it stays alive and the answer was not torn, for every status and framing; a tear is counted |
| HttpClient.Connect | src/http_source.c:1519-1528 | the connection used is the given one when it is alive and talks to the endpoint, else a new one, and slots are accounted for |
| HttpClient.FetchOn | src/http_source.c:1515-1593 | the pointer ends up null or at a live connection, at a boundary unless torn, whatever fails; slots stay accounted for; a 206 that was not torn delivers the file's bytes |
| HttpClient.HttpFetch | src/http_source.c:1595-1623 | through any chain of redirects the answer reported is that of the final URL's file unless torn, and the connection is left as by one fetch |
| HttpClient.RangeProbe | src/http_source.c:1698-1723 | a probe that reports ranges reports the size of the file the final URL names unless torn, and leaves a reusable connection or none |
| HttpSession.Session.Take | src/http_source.c:2335-2341 | a pooled connection taken is alive, at a message boundary unless torn, and no longer owned by the pool |
| HttpSession.Session.Give | src/http_source.c:2343-2356 | back into the pool exactly when it is alive and there is room; otherwise closed with its slot |
| HttpSession.Session.RangeFetch | src/http_source.c:2620-2626 | a range request on a pooled connection keeps pool and slots in order, and a 206 yields the file's bytes |
| HttpSession.Session.Refresh | src/http_source.c:2416-2452 | a new link is adopted only if its size equals the session's; the session's file never changes |
| HttpSession.Session.BeginStream | src/http_source.c:2543-2562 | a streamed response is kept open only if its next byte is the one asked for |
| HttpSession.Session.StreamOpen | src/http_source.c:2526-2564 | opening a stream leaves exactly the bytes from the offset on ahead of it, or nothing open |
| HttpSession.Session.Deliver | src/http_source.c:2577-2584 | the next bytes of the open response are the file's at the stream position |
| HttpSession.Session.EndStream | src/http_source.c:2585-2590 | a response read to its end: its connection goes to the pool's end when it is alive and there is room, and otherwise is closed with its slot |
| HttpSession.Session.ReadStreaming | src/http_source.c:2566-2593 | a streaming read returns the file's bytes at the offset unless an answer was torn, or failure, and 0 only for an empty request or beyond the end |
| HttpSession.Session.TryOnce | src/http_source.c:2613-2653 | one attempt, by its status: fetched exactly for a 206 with bytes, which are the file's; a failed link costs one of three refreshes; any other status is retried exactly when it is transient |
| HttpSession.Session.ReadDirect | src/http_source.c:2605-2674 | the retry loop ends: at most 22 range requests for a resilient reader and 4 otherwise; what it returns are the file's bytes unless an answer was torn |
| HttpSession.SleptGrows | src/http_source.c:2605-2673 | the delays 1, 2, 4, 8, 8, ... pass the 120 s deadline at the nineteenth failure at the latest |
| HttpSession.Session.Read | src/http_source.c:2595-2603 | any read, in any state of pool, stream and link: n bytes of the file at the offset (unless an answer was torn since the session was opened), or -1, or 0 at the end; slots conserved |
| HttpSession.Session.CloseAll | src/http_source.c:2680-2691 | closing gives back every slot the session held, after any history |
| HttpSession.OpenSession | src/http_source.c:2365-2406 | a session exists only for a server with byte ranges and the size the catalog promised |
| HttpSession.ReadThrough | src/http_source.c:2595-2603 | block after block, through timeouts, broken connections and refreshed links: when no answer has been torn since the session was opened, what is read is the beginning of the file, and reaching the end means having exactly the file |
| TrailerFaults.DrainExact | src/http_source.c:1438-1441 | for any bytes: the trailer loop stops right behind its section if and only if every failed receive in it stands between two characters of one line, with no other failure between them, or nothing comes behind it |
| TrailerFaults.SkipDrains | src/http_source.c:1438-1441 | where the loop of line reads stops is decided by line feeds and failed receives alone |
| TrailerFaults.TrailerBoundary | src/http_source.c:1438-1441 | so for the trailer section of any response: when the connection is left at the next response and when not |
| TrailerFaults.HeadBoundary | src/http_source.c:1363-1372 | for the header lines of any response under such receives, whatever its body: the connection is given up, or the line loop ends at the body exactly under the same condition |
| TrailerFaults.TimeoutExample | src/http_source.c:1438-1441 | a timeout in front of the blank line leaves two bytes of the old response for the next one |
| ConnSlots.StepKeepsInv | src/http_source.c:917-976 | every critical section of every thread keeps the counter equal to the connections open or being opened, within its bound |
| ConnSlots.SlotsConserved | src/http_source.c:917-976 | so over every run of any number of threads |
| ConnSlots.CloseGivesBack | src/http_source.c:2680-2691 | closing a session after any history returns exactly its own slots and touches nobody else's |
| Url.ParsePort | src/http_source.c:386-397 | the port loop accepts exactly digit strings with a value in 1..65535, without overflow |
| Url.UrlRoundTrip | src/http_source.c:349-425 | a parsed URL is recovered from its printed origin and path exactly when its host is not of the bracket family |
| Url.BracketHostExample | src/http_source.c:370-376 | the family is inhabited |
| Url.RelativeStays | src/http_source.c:428-458 | a link without scheme or leading // resolves to the base's own endpoint |
| Percent.DecodeEncode | src/http_source.c:134-162 | percent-decoding undoes percent-encoding |
| Percent.EncodeInto | src/http_source.c:148-162 | the encoder writes whole characters and stops short only when another escape might not fit |
| Percent.DecodeInto | src/http_source.c:134-145 | the decoder writes as much of the decoding as the buffer holds |
| Percent.RoundTrip | src/http_source.c:134-162 | both loops together give back every path when the buffers suffice |
| FileState.Stored | src/http_source.c:1645-1659 | filling a slot or changing its values breaks the probe sequence of no other key |
| FileState.FullExactly | src/http_source.c:1645-1659 | the table is full exactly when it holds 8192 different files |
| FileState.Table.Find | src/http_source.c:1645-1659 | linear probing finds every stored key, full table or not, and creates a new one exactly when asked to and there is room |
| FileState.Table.SetUnavailable | src/http_source.c:1661-1667 | the table agrees with a map in which this key's flag has been set |
| FileState.Table.IsUnavailable | src/http_source.c:1669-1676 | reads the flag of the map, false by default, and changes nothing |
| FileState.Table.SetExpectedSize | src/http_source.c:1678-1683 | the table agrees with a map in which this key's size has been set |
| FileState.Table.ExpectedSize | src/http_source.c:1685-1692 | reads the size of the map, 0 by default, and changes nothing |
| FileState.OnlyThat | src/http_source.c:1661-1683 | setting one value leaves the other value and all other files alone |
| FileState.Remembers | src/http_source.c:1645-1692 | after any history a stored file has the values set last, and one that is not stored has none worth remembering unless the table is full |
| Json.JsonEscape | src/http_source.c:331-343 | the escape loop writes the escaped prefix that fits |
| Json.StringRead | src/http_source.c:247-289 | an escaped string reads back up to the character where its buffer was full, control characters included |
| Json.FitsShort | src/http_source.c:331-343 | a buffer of 2n + 6 bytes holds any n characters that need no \u escape |
| Json.JsonMatch | src/http_source.c:228-243 | the bracket loop computes the match function |
| Json.MatchExact | src/http_source.c:228-243 | for every well-formed object or array the match is its true closing bracket, whatever strings it holds and whatever follows |
| Json.OnlyOwnKey | src/http_source.c:292-306 | in a printed object a quoted key with a colon behind it is only ever a field's own key, never part of a value |
| Json.FieldFound | src/http_source.c:292-306 | every key is found where it was printed |
| SourceConfig.SanitizeTwice | src/http_source.c:484-526 | sanitizing twice is sanitizing once exactly when the label has no white space at its ends, or is nothing else |
| SourceConfig.UnstableLabel | src/http_source.c:518-520 | the source with URL "http://a /" gets a label that changes when it is sanitized again |
| SourceConfig.SpaceFreeLabel | src/http_source.c:518-520 | which holds for every URL without white space |
| SourceConfig.BuffersSuffice | src/http_source.c:595-602 | the escape buffers hold every source without characters that need a \u escape |
| SourceConfig.ObjectRead | src/http_source.c:567-579 | a printed object reads back with all eight values |
| SourceConfig.ParseArray | src/http_source.c:563-583 | the item loop computes the item function |
| SourceConfig.ParseRoundTrip | src/http_source.c:528-608 | parsing a saved file gives back the list exactly when every string fits its escape buffer |
| SourceConfig.CutShort | src/http_source.c:595-602 | a source with a user name of control characters comes back changed |
| SourceConfig.LoadSaved | src/http_source.c:586-637 | saving up to eight sanitized sources and loading them, sanitizing again, gives back the same list |
| SourceConfig.LoadSanitized | src/http_source.c:484-637 | any up to eight sources with blank-free URLs and no characters that need a \u escape: those that sanitizing accepts come back unchanged, as it left them, from being saved and loaded |
| Crawl.CrawlSafe | src/http_source.c:2055-2209 | for every server, cyclic or not: at most 512 listings, none deeper than 5, no directory asked for twice, no package reported twice, and, when no index file is served, nothing outside the source |
| Crawl.ScanDirSound | src/http_source.c:2055-2153 | what any sub-walk asks for is its own directory or one not seen before it |
| Crawl.ScanDirUnder | src/http_source.c:2124-2128 | every URL asked for or reported extends the source URL, letter case aside |
| Crawl.Scanner.SeenAdd | src/http_source.c:1843-1857 | a URL is new exactly when its hash has not been seen |
| Crawl.Scanner.EmitPkg | src/http_source.c:1859-1883 | a package is counted and handed to the callback at most once |
| Crawl.Scanner.ScanDirectory | src/http_source.c:1994-2153 | the recursive walk refines the walk function; -1 only for the first listing |
| Crawl.Scanner.ScanRun | src/http_source.c:2155-2209 | catalog, index file and listings in this order, and the number of packages found |
| Crawl.ScanAndCount | src/http_source.c:2211-2237 | on the same server the count-only scan returns the number of callbacks of the full scan |
| CivilDate.StepsByOne | src/http_source.c:187-194 | the closed form steps by one from each day to the next, across month, leap and century ends |
| CivilDate.CountsDays | src/http_source.c:187-194 | it equals the day-by-day count from 1970-01-01 for every valid date, before and after |
| CivilDate.Increasing | src/http_source.c:187-194 | it is strictly increasing |
| CivilDate.DateRead | src/http_source.c:197-212 | every IMF-fixdate reads back as the seconds it names, within the 32-bit range |
| CivilDate.DatesOrdered | src/http_source.c:197-212 | of two IMF dates the earlier is read as the smaller number if and only if the later one is in the 32-bit range and not before 1970 |
| PartFormat.StartsAgree | src/multipart.c:233-246 | the stream and the assembler look for a part's slice at the same place exactly under the stated condition on data offset and icon |
| PartFormat.StartsDiffer | src/multipart.c:233-246 | a valid header of part 2 with an icon for which they do not |
| VirtualStream.Open | src/multipart.c:389-628 | whatever other parts are present, an opened stream has a correct entry for every part found and, for equal slices, for every part |
| VirtualStream.IntervalsPartition | src/multipart.c:525-627 | with equal slices the part intervals partition the package, at open and after every swap |
| VirtualStream.Stream.Swap | src/multipart.c:732-777 | a disc swap leaves the awaited part's entry correct and open, or fails with every entry still valid |
| VirtualStream.Stream.CopyRun | src/multipart.c:800-815 | short reads are continued; an end of file inside a slice is an error |
| VirtualStream.Stream.Read | src/multipart.c:630-817 | a read below the end fails or returns a non-empty run of the package's bytes; with equal slices it waits for a disc at most once |
| VirtualStream.ReadThrough | src/multipart.c:630-817 | block after block to the end rebuilds the package |
| Assembler.CheckHeaders | src/multipart.c:134-172 | 0 exactly for headers that belong together; nothing is written before |
| Assembler.AppendSlice | src/multipart.c:214-276 | a part's raw slice is handed to the output whole and counted, or an error returned |
| Assembler.Assemble | src/multipart.c:124-371 | success means that the slices, in order and as many bytes as promised, have been handed to the output, and they are in the file exactly if the unchecked last flush went well; any error after the output was created removes it |
| Assembler.WholeJoined | src/multipart.c:213-276 | the joined slices of a package are the package |
| Assembler.AssembleAndStream | src/multipart.c:124-371 | streaming hands over the package, and so does assembling when the last flush goes well; only an unreadable part, missing memory or room, or a cancel can make the assembler report an error |
| InstallQueue.Queue.Find | src/installer.c:88-93 | the first entry with the path, or none |
| InstallQueue.Queue.RemoveAt | src/installer.c:95-99 | the entry is gone and all others keep their order |
| InstallQueue.Queue.Enqueue | src/installer.c:2912-2925 | appended exactly when the path neither waits nor stands in the status record and there is room |
| InstallQueue.Queue.Pop | src/installer.c:104-115 | the head is taken exactly when the daemon runs and nothing installs |
| InstallQueue.Queue.PutBack | src/installer.c:120-129 | back at the head if there is room |
| InstallQueue.Queue.Remove | src/installer.c:2934-2941 | the first entry with the path is removed |
| QueueHandoff.StepKeeps | src/installer.c:2577-2601 | whatever thread runs next, while something installs there is a worker whose exit will lower the flag |
| QueueHandoff.StrandedExactly | src/installer.c:104-135 | a step leaves a package waiting for nobody exactly when it puts an entry back after the refusing install has come and gone |
| QueueHandoff.RunStranded | src/installer.c:104-135 | a run never strands a package exactly when no entry is put back into an idle installer |
| QueueHandoff.UndisturbedRun | src/installer.c:2912-2932 | in a run without such answers requests are served in order, no path waits twice and nothing is stranded |
| QueueHandoff.AllReturned | src/installer.c:2577-2601 | when all threads have returned nothing installs and nothing waits |
| QueueHandoff.PlacedKept | src/installer.c:104-135 | every request appended to the queue is waiting once, in one thread's hands, or gone: none is lost or doubled |
| QueueHandoff.QueuedExactly | src/installer.c:2912-2932 | a request answered "queued" waits or is being installed, exactly unless its path stands in the status record of an install that is over and nowhere in the queue |
| QueueHandoff.QueuedKept | src/installer.c:2912-2932 | so over every run: its ticket waits and stays in the books for good, or its package is being installed, or it was forgotten, exactly under that condition |
| QueueHandoff.ForgottenExample | src/installer.c:2912-2932 | a run in which a second request for a package, refused while it installs, is answered "queued" after the install ended, and nothing waits when all threads have returned |
| QueueHandoff.GoneForGood | src/installer.c:104-135 | what became of a request is never taken back |
| QueueHandoff.OrderKept | src/installer.c:104-135 | the queue stays in order of arrival exactly unless an entry is put back in front of an older one |
| QueueHandoff.DistinctKept | src/installer.c:2912-2925 | no path waits twice, exactly unless an entry is put back after its path was queued again |
| QueueHandoff.OldestFirst | src/installer.c:112-113 | the request handed out is the oldest one waiting |
| QueueHandoff.NoDeadlock | src/installer.c:2672-2689 | the joins of previous workers never block all threads |
| QueueHandoff.RunSound | src/installer.c:2643-2932 | all of this over every run, with at most 16 waiting |
| QueueHandoff.StrandedExample | src/installer.c:118-129 | a run of 21 steps that strands a package |
| PkgCache.EscapeJson | src/pkg_cache.c:287-308 | into a buffer twice the size of the source's the escape is never cut |
| PkgCache.ExtractField | src/pkg_cache.c:310-337 | the copy loops compute the field function, cut to the buffer |
| PkgCache.OnlyOwnKey | src/pkg_cache.c:310-317 | a key's pattern matches in a printed line only at the line's own key |
| PkgCache.LineFound | src/pkg_cache.c:310-317 | every key of the record is found at its own line |
| PkgCache.MetaFits | src/pkg_cache.c:426-436 | the longest record fits the reader's 8192-byte buffer |
| PkgCache.Lookup | src/pkg_cache.c:418-504 | the field-by-field reader computes the lookup function, with its defaults and rejections |
| PkgCache.RoundTrip | src/pkg_cache.c:418-572 | a record comes back from the cache exactly under the stated condition on control characters, quotes and the distrusted record |
| PkgCache.ControlLost | src/pkg_cache.c:287-308 | a record whose title holds a control character does not come back |
| Version.SameVersion | src/app_info.c:56-119 | normalizing preserves the parsed version exactly when there is text behind the prefix, or none at all |
| Version.CompareExactly | src/app_info.c:121-130 | the sign of the comparison is the order of the versions exactly when the deciding difference fits 32 bits |
| Version.TotalPreorder | src/app_info.c:121-130 | without negative numbers comparing is a total preorder, equal exactly for equal triples |
| Version.OverflowExample | src/app_info.c:121-130 | with them it is not |
| Version.PickBest | src/app_info.c:632-660 | a candidate loop ends with one of the candidates that is at least each of them, whenever every two of them are compared without overflow |
| Version.NaturalsComparable | src/app_info.c:121-130 | as is the case when no version offered has a negative number |
| Version.Installed | src/app_info.c:575-738 | nothing for a partially installed title; otherwise installed exactly if the database or a base file says so, and the version reported is one of those found and at least each, or v1.00 |
| IpcTransfer.Socket.Receive | src/install_ipc.c:14-51 | a message arrives whole however the kernel splits it, or the transfer fails having taken less than one message; it always ends |
| IpcTransfer.Socket.Transmit | src/install_ipc.c:14-51 | a message is sent whole, or a proper prefix of it and a failure |
| InstallHelper.Helper.Act | src/install_helper.c:138-177 | each request leads to exactly the call its turn allows, with the request's own data, or to none; the reply carries that call's result, or unavailable; and the turn is updated |
| InstallHelper.Helper.Next | src/install_helper.c:123-180 | one round: the record next in line is decoded, checked, acted on and answered, or the helper is done |
| InstallHelper.Discipline | src/install_helper.c:138-177 | whatever requests and results, the calls they lead to are disciplined: at most one install or shortcut, status only after an accepted install, termination last |
| InstallHelper.Helper.Serve | src/install_helper.c:86-191 | over every request sequence the calls made are exactly those the requests lead to, the answers sent are their answers in order, the requests served are the records received in order, and termination, as the last call, happens if and only if the initialization succeeded |
| InstallHelper.Logged | src/install_helper.c:146-175 | each native call keeps the log disciplined and the flags true to it |
| InstallService.Service.ReceiveResponse | src/install_service.c:15-43 | a reply is accepted only with the right magic, version, operation and process |
| InstallService.Service.Exchange | src/install_service.c:47-61 | what an exchange does to the bytes sent, the bytes received and the requests sent whole, at each of the five stages it can end at; a reply received whole is the message next in line and accepted exactly if it passes the four checks |
| InstallService.Service.Open | src/install_service.c:85-119 | the service is usable exactly after an accepted greeting of a successful initialization |
| InstallService.Service.Status | src/install_service.c:206-214 | the same for a status request, whether or not the connection is usable: the status returned is that of the message next in line |
| InstallService.Service.Close | src/install_service.c:121-176 | CLOSE is sent only over a connection that never failed |
| InstallService.MessageIsAnswer | src/install_helper.c:123-180 | the two ends together over first-in-first-out channels: message m + 1 is the helper's answer to record m of all the bytes sent, whether that is a request or pieces of two |
| InstallService.AnswersItsRequest | src/install_helper.c:123-180 | over such channels, when a request and the message next in line belong together, the helper serves that very request and the message is its answer |
| InstallService.AlignedExactly | src/install_service.c:47-61 | after any history the next request and the message next in line belong together exactly when no request was cut while being sent and no reply while being received |
| InstallService.BookedKept | src/install_service.c:47-61 | every exchange keeps the books: the bytes sent are the requests sent whole exactly when none was cut, and the messages received are the greeting and their replies exactly when none was received in part |
| InstallService.AnsweredExactly | src/install_service.c:47-61 | over any history and with the helper at the other end: a reply received whole is the helper's answer to its own request if nothing was cut before, and otherwise the two do not belong together |
| InstallService.StaleReply | src/install_service.c:206-214 | two status requests over a kernel that is late once, to any helper that greets and answers: the first times out and the second accepts the answer to the first |
| InstallService.CutRequest | src/install_ipc.c:14-51 | two status requests over a kernel that is slow to take the first: of that only the beginning is sent, and the second accepts the answer to a record that is neither, with the header of the first |
| BlurHash.CharsDiffer | src/icon_blurhash.c:35-36 | the 83 digits are pairwise different |
| BlurHash.DigitsExact | src/icon_blurhash.c:66-76 | digits read back as the value exactly when there are enough of them |
| BlurHash.EncodeBase83 | src/icon_blurhash.c:66-76 | the two loops write exactly the digits, most significant first |
| BlurHash.HashRead | src/icon_blurhash.c:156-193 | a hash is 4 + 2xy characters long and decodes to what was packed: 19^3 < 83^2 and 2^24 < 83^4 |
| BlurHash.Encode | src/icon_blurhash.c:78-196 | for 1 to 9 components per axis and a large enough buffer, a terminated hash that decodes to the clamped inputs; otherwise -1 and nothing is written (allocations do not fail here) |
| BlurHash.BoxesTile | src/icon_blurhash.c:220-242 | every pixel lies in exactly one box along each side, and no box is empty |
| BlurHash.BoxesFew | src/icon_blurhash.c:220-224 | at most 128 boxes per side |
| BlurHash.SumsFit | src/icon_blurhash.c:236-257 | for sides up to 2048 a box has at most 256 pixels and every sum, rounding included, stays below 2^16 while it is accumulated |
| BlurHash.Downscale | src/icon_blurhash.c:236-257 | every box's color is the rounded mean of its pixels over the backdrop, each channel within 0..255 |

## Left out

- Sockets, poll, TLS, DNS and timers: environments that may fail or split data anywhere.
- Credentials, certificate policy, log texts, prompts and progress percentages: no part in the properties.
- HttpSession.ReadThrough: nothing is claimed about the data, or about what is left on a connection, once an answer has been torn (see above); `CutLines` has the inputs.
- BodyFaults.BodyScanned: a close-delimited body that ends early counts as whole, as in the code, so its length is not claimed; a chunked body may also be taken to end in the last, unfinished line of a connection that delivers nothing more.
- BodyFaults.ChunksScanned: that a receive failing inside a line does harm is proved for the families in `CutLines`, and exactly where it decides where a loop over header or trailer lines stops; inside a size line it depends on what the digits read so far announce.
- BodyFaults.HeadRightly: a header line cut in two may also be read without harm, when neither piece means anything; the condition given is sufficient, and exact for where the reader ends (`TrailerFaults.HeadBoundary`).
- CutLines.LengthCut: for a response with that one header line whose status line does not continue the digits.
- HttpClient.Net.SlotAcquire: the wait for a free slot is a refusal in the sequential model; ConnSlots has the waiting threads.
- HttpSession.Session.Read: one reader at a time; concurrent readers appear only in ConnSlots, where a critical section is one step.
- HttpSession.Session.Refresh: without `Honest` a link to another file of the same size would be adopted, as the code does.
- HttpClient.ReadRange: the data of a 200 answer to a range request is not claimed to be the file's, since the server in the model promises it only for 206.
- The effect of the range probe on the unavailable flag, Last-Modified and Content-Type of a response, and `http_source_pread`: easy members.
- FileState.Table.Find: a file is its URL's hash; that two URLs may share one is not modelled.
- Crawl.Scanner.ScanDirectory: listings are given by their entries or links; finding them in HTML or JSON text, entity decoding and failing allocations are not modelled.
- Crawl.CrawlSafe: what an index file names is fetched wherever it lies, as in the code, so containment is claimed only without one.
- Crawl.Scanner.AskSize: the size a HEAD request reports is arbitrary.
- CivilDate.DateRead: numbers that overflow an int in the date text are read as the C library truncates them; the sum of hours, minutes and seconds is not wrapped.
- SourceConfig.LoadSaved: writing to a temporary file and renaming it, and failing writes, are not modelled; the CRC in a generated id is a parameter.
- VirtualStream.Open: when the opening succeeds is not claimed: it depends on which parts' files can be read.
- VirtualStream.Stream.Read: sequential; a disc swap closing another reader's file, SMB and HTTP parts are not modelled.
- Assembler.Assemble: raw slices only; the chunked legacy format and its decompression library are left out.
- QueueHandoff.RunSound: the worker's body is one state that is left by lowering the flag or after someone lowered it; its polling of the console is left out, and so is a restart after shutdown. Paths are taken to be shorter than their 512-byte buffers.
- The pending update of a batch: only its hand-over by the finishing worker appears, not the variable it waits in.
- The skipping of updates and DLC whose base failed: one of the ways a start gives up.
- PkgCache.Lookup: the checksum, the directories and the check for an icon file are outside; the icon file is a parameter.
- Version.Installed: the database query and the files are given by what they say (a title that is only partially installed included); title IDs are well-formed and versions shorter than their buffers; the version is claimed to be the largest found when no comparison overflows.
- Version.SameVersion: a result too long for the caller's buffer is cut by the code.
- InstallHelper.Helper.Serve: the thread that watches for the parent's death ends the process; only a normal return is modelled.
- InstallService.Service.Close: reaping and killing the process is left out.
- BlurHash.Encode: cosine transform and gamma curves are outside; their rounded results are inputs. Allocations, whose failure also gives -1, do not fail. Pixel buffers are rows of pixels instead of flat arrays.
- SMB shares, the local HTTP server and its routes, the package parser, live uploads, notifications and the user interface.
