# Airfoil remote: a Dafny model of the protocol client and the table formatter

This project models the core of a Python remote control for Rogue Amoeba's
Airfoil. The remote speaks Airfoil's "slipstream remote" protocol over TCP.
The project also models the small text-table printer the command line uses.
Every part is written as pure Dafny functions over immutable data.

The client opens a fresh connection for each command. It sends a greeting and
checks the server's answer for `majorversion=1,minorversion=5`. It then writes
one length-prefixed command, `<len>;<payload>\r\n`, which carries a random
`requestID`. Finally it reads length-prefixed JSON replies until one of them
settles what it is waiting for. In the model:

- **One exchange** (`Correlation.Exchange`) is the k-th draw of a request
  number, the k-th connection's greeting answer and the k-th connection's
  reply stream. All three come from a `Net` value. The exchange returns the
  commands written as a trace of `Send` events. Sleeps are `Sleep` events.
- **The wire** is modelled byte by byte:
  - `Framing` covers the command encoder and the greeting check.
  - `Decoder` is the synchronous client's reader. It collects digits up to
    `;`, reads `N - 1` bytes and appends `}`.
  - `AsyncDecoder` is the asynchronous client's reader. It reads until `;`,
    reads while more than one byte is owed and appends nothing.
- **Replies** are structured values (`Protocol.Reply`), as `json.loads`
  would give them. The `Correlation` consumer loops pick the reply that
  answers a request id.
- **Entity resolution** lives in two modules:
  - `Keywords` derives a name's keywords.
  - `Resolver` applies the id / name / keywords selector rules. When several
    entities match, the last one in list order wins.
- **Records** (`Catalog`) turn replies into speaker and source records:
  - the asynchronous client keeps lists;
  - the synchronous client keeps name-keyed dictionaries, in which a later
    duplicate name overwrites the earlier record but keeps its position.
- **The asynchronous client** (`Client`, `Fade`, `Mute`):
  - speaker connection;
  - source selection;
  - volume;
  - fades, scheduled as a trace of volume commands and sleeps;
  - the `muted_speakers` memory of mute and unmute.
- **The synchronous client** (`SyncClient`): its dictionary-based variants of
  the same operations.
- **`Table`**: `nones`, `bools` and `print_table`. The terminal width is a
  parameter and the function returns the lines instead of printing them.

Volumes are integers in millionths (`Client.Full` is 1.0). Durations are in
ten-thousandths of a second. `round(x, 6)` and `round(x, 4)` of a quotient
become `Fade.RoundDiv`, a division rounded to the nearest integer with halves
going to even.

Where the code and its own description disagree, the model follows the code:

- the length prefix counts the payload without the trailing CRLF;
- the greeting includes its final `OK\n` line;
- a fade sleeps after every tick, including the last one.

## Model

| member | source | states |
|---|---|---|
| `Framing.Decimal` | airfoil_async.py:29 | `str()` of a request number is a non-empty run of digits with no leading zero |
| `Framing.DecimalRoundTrip` | airfoil_async.py:29-30 | the decimal text of a request number reads back as that number |
| `Framing.DecimalCanonical` | airfoil_async.py:29-30 | a digit string without a leading zero is the decimal text of its value, so a request id has exactly one spelling |
| `Framing.DecimalValueBounds` | airfoil_async.py:29 | the value of a digit string of length L lies below 10^L, and at or above 10^(L-1) when there is no leading zero |
| `Framing.DecimalLeadingZero` | airfoil.py:41 | a leading zero does not change the value `int()` reads from a digit string |
| `Framing.CompactDropsOnlySpaces` | airfoil_async.py:31 | the `': '`/`', '` compaction removes only spaces and never lengthens the text |
| `Framing.SquashAbsent` | airfoil_async.py:31 | `str.replace` of a pair that does not occur leaves the text unchanged |
| `Framing.CompactKeepsCompact` | airfoil_async.py:31 | compacting a text with no `': '` or `', '` leaves it unchanged |
| `Framing.Bytes` | airfoil_async.py:32 | ASCII encoding keeps the length and maps each character to its code point |
| `Framing.CreateCmd` | airfoil_async.py:28-33 | encoding succeeds exactly when the rendered command is ASCII; the command carries the drawn request id, whose digits read back as the drawn number; the frame is the ASCII bytes of the decimal payload length, `;`, the compacted payload and CRLF |
| `Framing.FrameAscii` | airfoil_async.py:32 | a frame is ASCII exactly when its payload is, so ASCII encoding fails only on the payload |
| `Framing.AsciiDecodes` | airfoil_async.py:49 | ASCII bytes always decode as UTF-8 |
| `Framing.OneByteDecodes` | airfoil_async.py:49 | a single byte decodes as UTF-8 exactly when it is below 0x80 |
| `Framing.HelloAscii` | airfoil_async.py:44-45 | the greeting and the accepted version string are ASCII text |
| `Framing.HandshakeAccepted` | airfoil_async.py:43-49 | the greeting check raises exactly when the answer is not valid UTF-8, and accepts exactly when the decoded answer contains `majorversion=1,minorversion=5` |
| `Framing.OtherVersionRefused` | airfoil_async.py:44-49 | a server answering `majorversion=1,minorversion=4` is refused, without an exception |
| `Framing.AcceptedWhereverVersionSits` | airfoil_async.py:49 | any decodable answer that contains the version string is accepted, whatever surrounds it |
| `Framing.EchoedHelloAccepted` | airfoil.py:27-31 | a server that echoes the client's own greeting is accepted |
| `Framing.BytesAppend` | airfoil_async.py:32 | ASCII encoding distributes over concatenation |
| `Text.ToLower` | airfoil_async.py:37 | lower-casing, of `A`-`Z` only, keeps a character alphanumeric exactly when it was, leaves no upper-case letter and fixes the space |
| `Text.Squash` | airfoil_async.py:39 | one `replace` pass never lengthens the text, shortens it when the pair occurs and keeps its first character |
| `Text.Collapse` | airfoil_async.py:38-39 | after the `while '  ' in name` loop no two spaces are adjacent |
| `Text.TrimLeft` | airfoil_async.py:37 | the left strip is a suffix of its input that does not start with whitespace |
| `Text.TrimRight` | airfoil_async.py:37 | the right strip is a prefix of its input that does not end with whitespace |
| `Text.Split` | airfoil_async.py:40 | `split(' ')` yields at least one part, none containing the separator, and the first part is empty exactly when the text starts with the separator or is empty |
| `Text.SplitJoin` | airfoil_async.py:40 | joining the parts of a split with the separator gives back the text |
| `Text.SplitAtSeparator` | airfoil_async.py:40 | splitting `u + ' ' + z` gives the parts of `u` followed by the parts of `z` |
| `Text.SplitWithoutSeparator` | airfoil_async.py:40 | a text without the separator splits into itself alone |
| `Keywords.Blank` | airfoil_async.py:36 | every ASCII letter and digit is kept and every other character becomes a space |
| `Keywords.RunsShape` | airfoil_async.py:35-41 | the reference keyword list (the lower-cased runs of alphanumerics) is non-empty exactly when the name has an alphanumeric character, and every entry is a non-empty lower-case alphanumeric token |
| `Keywords.FieldsOfBlank` | airfoil_async.py:36-37 | the space-separated fields of the blanked, lower-cased name are the reference runs |
| `Keywords.FieldsCollapse` | airfoil_async.py:38-39 | collapsing double spaces does not change the fields |
| `Keywords.FieldsStrip` | airfoil_async.py:37 | stripping the blanked name does not change its fields |
| `Keywords.LowerStrip` | airfoil_async.py:37 | stripping and lower-casing commute |
| `Keywords.FieldsNormalized` | airfoil_async.py:35-39 | the normalised name (blanked, stripped, lower-cased, collapsed) has the reference runs as its fields |
| `Keywords.NormalizedTidy` | airfoil_async.py:37-39 | the normalised name has no double space and neither starts nor ends with a space |
| `Keywords.KeywordsAreRuns` | airfoil_async.py:35-41 | `get_keywords` equals the reference runs for a name with an alphanumeric character, and is `['']` otherwise |
| `Keywords.KeywordsAreTokens` | airfoil_async.py:35-41 | for a name with an alphanumeric character every keyword is non-empty, lower-case and alphanumeric |
| `Keywords.RunsKeepContent` | airfoil_async.py:36 | the reference runs, concatenated, are the name's alphanumerics lower-cased |
| `Keywords.KeywordsKeepContent` | airfoil_async.py:35-41 | the keywords, concatenated, are the name's alphanumerics lower-cased: nothing is lost or invented |
| `Keywords.KeywordsExample` | tests/test_airfoil.py:34-38 | the test's name, with its underscore, brace, bar, dot, newline, spaces and comma, gives hello, goodbye, 123, 789, tomorrow, afternoon |
| `Decoder.Recv` | airfoil.py:48 | a read of at most k bytes returns a prefix of what is pending and returns nothing only when nothing is pending |
| `Decoder.ScanDigits` | airfoil.py:36-44 | a successful prefix scan collects at least one digit, nothing but digits, and leaves fewer bytes than it was given |
| `Decoder.ScanSkips` | airfoil.py:37-44 | bytes that are neither digits nor `;` (a leftover `OK\n`) do not change the scanned length |
| `Decoder.ScanDigitRun` | airfoil.py:37-44 | a run of digits before `;` is appended to the length in order |
| `Decoder.ReadLength` | airfoil.py:36-44 | the byte-at-a-time loop returns the digits before the first `;` and leaves the rest pending, and fails as the scan does |
| `Decoder.ReadBody` | airfoil.py:45-51 | the body loop succeeds exactly when N - 1 bytes are pending, then returns them followed by `}` and leaves the rest; read i asks for the bytes still owed, but never more than 4096, the first owing N - 1 and each later one owing less |
| `Decoder.AsksFitSnoc` | airfoil.py:46-50 | one more read asks for the bytes still owed, at most 4096, and owes fewer than the read before |
| `Decoder.DecodeFrame` | airfoil.py:35-52 | a decoded body ends in `}` and the remaining bytes are strictly fewer |
| `Decoder.ReadFrame` | airfoil.py:35-52 | the reading loops decode exactly what the flat frame decoder gives on the pending bytes |
| `Decoder.DigitBytes` | airfoil_async.py:32 | the length prefix is a non-empty run of digit bytes spelling the decimal length |
| `Decoder.ServerFrameDecodes` | airfoil.py:35-52 | after skippable junk, a length-prefixed payload ending in `}` decodes to that payload and leaves its last byte and the rest pending |
| `Decoder.StreamRoundTrip` | airfoil.py:33-52 | the frame generator yields every framed payload in stream order and then waits for more |
| `Decoder.ClientFrameShape` | airfoil.py:54-59 | the bytes of a client frame are the server frame of the payload followed by CRLF |
| `Decoder.ClientFrameDecodes` | airfoil.py:54-59 | the reference decoder reads a client frame back as its payload |
| `Decoder.CreatedFrameDecodes` | airfoil_async.py:28-33 | the synchronous reader reads the frame `_create_cmd` returns back as its payload, leaving `}` and CRLF unread |
| `AsyncDecoder.IndexOf` | airfoil_async.py:58 | the first occurrence of a byte is found |
| `AsyncDecoder.ReadUntil` | airfoil_async.py:58 | `readuntil(b';')` returns the pending bytes up to and including the first `;` and fails exactly when no `;` is pending |
| `AsyncDecoder.DigitsIn` | airfoil_async.py:60 | the length text is the ASCII digits of the prefix, in order, as an independent filter gives them |
| `AsyncDecoder.PrefixLength` | airfoil_async.py:60 | reading the length fails exactly when the prefix does not decode or holds no digit; otherwise it is the decimal value of the digits the prefix holds |
| `AsyncDecoder.BodyAsWritten` | airfoil_async.py:61-66 | the loop as written consumes between N - 1 and N bytes, and fails only when fewer than N - 1 are pending; which of the two is fixed by `OneBurstAsWritten` for a body that arrived whole |
| `AsyncDecoder.OneBurstAsWritten` | airfoil_async.py:61-66 | a body that arrived in one burst is read 4096 bytes at a time, and the loop as written stops one byte short exactly when the announced length is one more than a multiple of 4096 |
| `AsyncDecoder.OneBurstFits` | airfoil_async.py:61-66 | a body of at most 4096 bytes in one burst is read whole, except a one-byte body, for which the loop never reads |
| `AsyncDecoder.OneBurst4097` | airfoil_async.py:61-66 | a 4097-byte body in one burst comes back without its last byte |
| `AsyncDecoder.CorrectedOneBurst4097` | airfoil_async.py:61-66 | the corrected loop reads the same 4097-byte burst whole |
| `AsyncDecoder.FrameAsWritten` | airfoil_async.py:57-67 | a frame read as written fails when no `;` is pending; otherwise the prefix through the first `;` gives the length N, and the body is the next N - 1 or N pending bytes, the rest staying pending |
| `AsyncDecoder.Body` | airfoil_async.py:61-66 | the corrected loop consumes exactly N bytes, and fails exactly when fewer are pending |
| `AsyncDecoder.ReadUntilIsFlat` | airfoil_async.py:58 | `readuntil` depends only on the concatenation of the pending bursts |
| `AsyncDecoder.IndexOfUnique` | airfoil_async.py:58 | the first `;` is the one position with no `;` before it |
| `AsyncDecoder.ReadFrameIsFlat` | airfoil_async.py:57-67 | the corrected reader's frame depends only on the pending bytes, not on how they are split into reads |
| `AsyncDecoder.PrefixRoundTrip` | airfoil_async.py:57-60 | the length prefix of a frame reads back as the length it announces |
| `AsyncDecoder.ServerFrameReadsBack` | airfoil_async.py:57-67 | the corrected reader reads a framed body back as itself and leaves what follows |
| `AsyncDecoder.CreatedFrameShape` | airfoil_async.py:28-33 | the frame `_create_cmd` returns is the server framing of its payload followed by CRLF |
| `AsyncDecoder.CreatedFrameReadsBack` | airfoil_async.py:28-33 | the corrected reader reads the frame `_create_cmd` returns back as its payload, leaving the CRLF |
| `AsyncDecoder.ExampleLeftover` | airfoil_async.py:57-60 | bytes `OK\n` left over before `2211;` do not change the length read: 2211 |
| `AsyncDecoder.DigitsAfterJunk` | airfoil_async.py:60 | bytes that are not digits in front of the prefix add no digit |
| `AsyncDecoder.DigitsOfRun` | airfoil_async.py:60 | a run of digits followed by non-digits keeps exactly the run |
| `AsyncDecoder.ExamplePending` | airfoil_async.py:57-67 | `2;{}` in one burst and in two bursts are the same bytes |
| `AsyncDecoder.AsWrittenDependsOnArrival` | airfoil_async.py:62-66 | the same bytes `2;{}` read as written give `{}` in one burst and `{` in two |
| `AsyncDecoder.CorrectedIgnoresArrival` | airfoil_async.py:62-66 | the corrected reader gives `{}` either way |
| `Correlation.Scan` | airfoil_async.py:71-73 | a consumer loop's result comes from a reply it did not skip, and a stream with nothing but skipped replies ends without a result |
| `Correlation.ScanOnlyRelevant` | airfoil_async.py:71-73 | dropping the replies the loop skips does not change its result |
| `Correlation.ScanAfterSkipped` | airfoil_async.py:71-73 | replies the loop skips in front of the stream do not change its result |
| `Correlation.Awaited` | airfoil_async.py:72-73 | a reply is skipped exactly when its `replyID` differs from the request id or is absent; a matching reply gives `data.success`, and one without it raises |
| `Correlation.AwaitedLeniently` | airfoil_async.py:290-303 | in `set_source`, a matching reply without `data.success` gives False instead of raising |
| `Correlation.ScanLeniently` | airfoil_async.py:290-303 | the lenient consumer never raises: it settles exactly when some reply carries the request id, on the first such reply's `data.success` or False, and otherwise waits for the stream to end |
| `Correlation.CorrelateFirstMatch` | airfoil_async.py:69-73 | the result is `data.success` of the first reply whose `replyID` is the request id |
| `Correlation.CorrelateIgnoresOthers` | airfoil_async.py:69-73 | removing replies with another or no `replyID`, in any position, does not change the result |
| `Correlation.RelevantIsFilter` | airfoil_async.py:72 | the replies that matter are exactly those carrying the request id |
| `Correlation.Exchange` | airfoil_async.py:51-73 | one exchange uses one draw; the command is written exactly when it encodes and the greeting is accepted; a refused greeting ends the stream with no result; otherwise the consumer loop decides |
| `Resolver.SelectorOf` | airfoil_async.py:79-99 | no truthy selector, more than one truthy selector and a non-list truthy keywords argument are each an error exactly in their case; otherwise the one given selector is used |
| `Resolver.SpeakerHandles` | airfoil_async.py:86-101 | every speaker is searched, in list order |
| `Resolver.SourceHandles` | airfoil_async.py:264-282 | every source is searched, in list order |
| `Resolver.Pick` | airfoil_async.py:85-104 | the pick matches the selector and no later entry does; there is no pick exactly when nothing matches, and that is a not-found error for the selector |
| `Resolver.FindSpeaker` | airfoil_async.py:75-105 | selector errors come first, then a missing fetch; a found speaker is in the fetched list and matches the selector |
| `Resolver.LowerTwice` | airfoil_async.py:87 | lower-casing is idempotent |
| `Resolver.PickIgnoresCase` | airfoil_async.py:85-96 | ids and names that differ only in case pick the same entry |
| `Resolver.PickByLowerName` | airfoil_async.py:91-96 | looking up a name or its lower-case form gives the same entry |
| `Resolver.PickLastWins` | airfoil_async.py:86-88 | an entry appended at the end that matches is the one picked |
| `Resolver.PickByOwnKeywords` | airfoil_async.py:97-104 | an entry is found by its own token keywords when no later entry carries them all |
| `Resolver.FoundByDerivedKeywords` | airfoil_async.py:97-104 | an entry is found by the keywords derived from its name when no later entry carries them all |
| `Catalog.SpeakerOf` | airfoil_async.py:146-148 | a speaker record takes name, type, `longIdentifier`, volume, connection and password from the reply and its keywords from its name |
| `Catalog.SpeakersOf` | airfoil_async.py:145-149 | every speaker of the reply becomes a record, in order |
| `Catalog.SpeakerList` | airfoil_async.py:141-151 | the speaker loop takes the first reply with `data.speakers` and never raises |
| `Catalog.SourceOf` | airfoil_async.py:210-213 | a source record takes `friendlyName`, `identifier` and the kind, keywords from the name, and the icon only when asked |
| `Catalog.SourcesOf` | airfoil_async.py:214-221 | every source of a category becomes a record of that kind, in order |
| `Catalog.AllSources` | airfoil_async.py:214-221 | the source list holds as many records as the four categories together, with the kinds in the order audio devices, running applications, recent applications, system audio |
| `Catalog.AllSourcesByKind` | airfoil_async.py:214-221 | keeping the records of one kind gives that category's records, one per entry and in the reply's order: no record is dropped, added or moved within its kind |
| `Catalog.BlocksInOrder` | airfoil_async.py:214-221 | four per-kind blocks concatenated in the client's order have their kinds in order |
| `Catalog.KindFilter` | airfoil_async.py:210-221 | a block of one category is kept whole by the test for its kind and dropped whole by any other |
| `Catalog.SourceList` | airfoil_async.py:204-223 | a reply without `data` raises; the first reply with a category list is taken |
| `Catalog.CurrentFromFirst` | airfoil_async.py:330-340 | the current source the consumer loop settles on is built from the first reply with metadata, and every earlier reply has `data` and no metadata |
| `Catalog.FetchCurrent` | airfoil_async.py:305-340 | one exchange with the given request; a current source comes from the first reply with metadata |
| `Catalog.SourcesKeepKind` | airfoil_async.py:214-221 | each entry of each category appears in the source list with its own kind |
| `Catalog.CurrentOf` | airfoil_async.py:330-340 | the current-source record copies the metadata; the two flags are true only when the metadata says so |
| `Catalog.CurrentSourceReply` | airfoil_async.py:330-340 | a reply without `data` raises; the first reply with `metadata` is taken |
| `Catalog.PruneKeeps` | airfoil_async.py:313-323 | a field stays in the request exactly when it was asked for, with its requested value |
| `Catalog.RequestedDataContents` | airfoil_async.py:306-323 | `requestedData` holds exactly the wanted fields, with `trackMetadataAvailable` set to false when track metadata is not wanted |
| `Catalog.Keys` | airfoil.py:95-100 | the keys of a dictionary, in insertion order |
| `Catalog.Values` | airfoil.py:137 | the values of a dictionary, in insertion order |
| `Catalog.Lookup` | airfoil.py:100 | a key is absent exactly when no entry has it, and a present key maps to one of its entries |
| `Catalog.Put` | airfoil.py:100 | assigning an existing key keeps the size and every key's position and replaces only that key's value; a new key is appended |
| `Catalog.PutUnique` | airfoil.py:100 | assignment keeps keys unique |
| `Catalog.PutLookup` | airfoil.py:100 | after assignment the key maps to the new value and every other key to its old one |
| `Catalog.Index` | airfoil.py:95-100 | building a dictionary by assignment keeps keys unique |
| `Catalog.PutFrom` | airfoil.py:100 | every entry after assignment was there before or is the assigned one |
| `Catalog.IndexFrom` | airfoil.py:95-100 | every entry of the built dictionary comes from one of the inserted items |
| `Catalog.LookupEntry` | airfoil.py:100 | with unique keys each entry is what its key looks up |
| `Catalog.IndexSnoc` | airfoil.py:95-100 | inserting one more item is one more assignment |
| `Catalog.IndexShadow` | airfoil.py:95-100 | a later item with an earlier name takes over that name's value but keeps its first position |
| `Catalog.LastWithKey` | airfoil.py:95-100 | finds the last item with a given name, or reports that none has it |
| `Catalog.IndexLast` | airfoil.py:95-100 | a name looks up the record of the last item with that name |
| `Catalog.SpeakerDict` | airfoil.py:95-101 | the speaker dictionary has one entry per name |
| `Catalog.SpeakerDictLast` | airfoil.py:95-101 | each name maps to the record of the last speaker carrying it, and unknown names are absent |
| `Catalog.SpeakerTable` | airfoil.py:92-102 | the first reply with `data.speakers` is taken, never raising, as a name-keyed dictionary |
| `Catalog.SourceDict` | airfoil.py:194-211 | the source dictionary has one entry per `friendlyName` |
| `Catalog.AddKindLast` | airfoil.py:200-211 | a category whose flag is off adds nothing; one whose flag is on makes each of its names look up its last source of that kind |
| `Catalog.SourceTable` | airfoil.py:190-213 | a reply without `data` raises; the first reply with a category list is taken as a name-keyed dictionary |
| `Catalog.NoKindsNoSources` | airfoil.py:200-211 | with every flag off the dictionary is empty |
| `Client.Abort` | airfoil_async.py:79-84 | an exception keeps the state, the exchanges and the commands written before it |
| `Client.Sent` | airfoil_async.py:56 | the requests written are drawn from the events |
| `Client.SentAppend` | airfoil_async.py:56 | the requests of two traces in sequence are the requests of each, in order |
| `Client.GetSpeakers` | airfoil_async.py:132-151 | one exchange with the subscribe command; the cached speakers are replaced exactly when a reply with speakers arrives, by the records of the first such reply; the rest of the state is untouched |
| `Client.FindSpeaker` | airfoil_async.py:75-105 | the fetch comes first and its failure propagates; the resolution then runs over the fetched list and a found speaker is in the new cache |
| `Client.SetConnected` | airfoil_async.py:153-171 | a speaker already in the requested state gives True without a command; otherwise one connect or disconnect command for its id is correlated |
| `Client.ToggleSpeaker` | airfoil_async.py:173-183 | a lookup failure raises with nothing written after the fetch; otherwise every command written fetches the speakers or changes the found speaker (by its id, up to case); no disconnect follows a connect; a speaker that was not connected gets no disconnect; a connected one gets the disconnect step first, and a falsy or failed result of it is returned with no connect written |
| `Client.ToggleSteps` | airfoil_async.py:176-183 | the disconnect step (only for a connected speaker) and the connect step after a truthy one write what `toggle_speaker` promises |
| `Client.ToggleFromSteps` | airfoil_async.py:176-183 | the call's result and trace follow from the lookup, the disconnect step and the connect step: a falsy or failed disconnect result is returned with the trace cut after it, a truthy one is followed by the connect step |
| `Client.SetConnectedFor` | airfoil_async.py:153-171 | `connect_speaker(id=...)` and `disconnect_speaker(id=...)` write nothing but the fetch and a change for a speaker whose id equals the given one up to case |
| `Client.FoundById` | airfoil_async.py:155-156 | a speaker found by id carries that id, up to case |
| `Client.ToggleOneSent` | airfoil_async.py:176-183 | a fetch, a disconnect step and a connect step for one id write only commands for that id, with no disconnect after a connect |
| `Client.Reconnect` | airfoil_async.py:180-183 | a falsy or failed disconnect result is returned with nothing more written; a truthy one is followed by `connect_speaker` by id, whose result, state and writes are those of the call |
| `Client.SetEach` | airfoil_async.py:193-196 | a completed pass uses between one and two exchanges per id; every request written is a `subscribe` or a change in the pass's direction |
| `Client.FetchThenChange` | airfoil_async.py:153-171 | a lookup followed by a change writes at most the `subscribe` and then the change for that id, in the requested direction |
| `Client.FetchSendsSubscribe` | airfoil_async.py:132-151 | a speaker fetch writes nothing but its `subscribe` |
| `Client.IdsWhere` | airfoil_async.py:189-192 | the ids collected are the ids of the speakers the test keeps, in list order and with repeats, as an independent filter-then-map gives them |
| `Client.ListArgs` | airfoil_async.py:481-487 | ids and names must both be lists, and exactly one of them non-empty; the error names the first argument at fault |
| `Client.ToggleSpeakers` | airfoil_async.py:185-197 | success returns True; a failed or empty fetch fails; otherwise a disconnect pass over the ids of the speakers connected at the fetch, then, unless it raised, a connect pass over the same ids; no disconnect is written after a connect; on success each pass made one or two exchanges per id |
| `Client.ToggleNobodyConnected` | airfoil_async.py:185-197 | with no speaker connected at the fetch, nothing is written after it and True is returned |
| `Client.ToggleSent` | airfoil_async.py:185-197 | the fetch, the disconnect pass and the connect pass write no disconnect after a connect, whether or not the connect pass runs |
| `Client.GetSources` | airfoil_async.py:199-223 | one exchange asking for icons of size 10; the cached sources are replaced exactly when a reply with a category list arrives, by the records of the first such reply, every earlier reply having `data` |
| `Client.GetCurrentSource` | airfoil_async.py:305-340 | one exchange with the pruned metadata request; the cached current source is replaced exactly when a reply with metadata arrives, by the record built from the first such reply |
| `Client.ChooseSource` | airfoil_async.py:262-284 | with no selector a cached source named exactly `System Audio`, failing exactly when there is none; with one selector a cached source it matches, failing exactly when none does |
| `Client.Refresh` | airfoil_async.py:259-261 | sources are fetched only when none are cached; the speakers and mute memory do not change |
| `Client.SelectChosen` | airfoil_async.py:286-303 | a resolution failure propagates; otherwise one select command for the chosen source, under its kind's list name and its id; a settled result is the lenient verdict of the first reply carrying the request id (False when that reply lacks `data.success`); once written, it settles exactly when such a reply arrives, and otherwise the stream ends |
| `Client.SetSource` | airfoil_async.py:225-303 | more than one selector raises before any fetch; otherwise the refresh, then the choice and the select command |
| `Client.SetSourceSettles` | airfoil_async.py:289-303 | the value `set_source` returns is `data.success` of the first reply carrying the select command's request id, and False when that reply has no `data.success` |
| `Client.LenientExchange` | airfoil_async.py:289-303 | one exchange with the lenient consumer settles on the first reply carrying its request id; once written, it settles exactly when such a reply arrives, and otherwise the stream ends |
| `Client.SetVolume` | airfoil_async.py:342-352 | a non-number or a volume outside 0..1 raises before any exchange; otherwise the speaker is found and one volume command for it is correlated |
| `Fade.RoundDiv` | airfoil_async.py:385-386 | the rounded quotient is within half a unit of the exact one, and an exact half goes to the even neighbour, as Python's `round` does |
| `Fade.Tick` | airfoil_async.py:439-447 | one command per target in speaker order, each with that target's tick volume, then one sleep |
| `Fade.PlanLength` | airfoil_async.py:438-447 | n ticks over m targets are n(m + 1) steps |
| `Fade.PlanPrefix` | airfoil_async.py:438-447 | a shorter run of ticks is a prefix of a longer one |
| `Fade.PlanAt` | airfoil_async.py:438-447 | step `i(m + 1) + j` of a schedule over m targets is tick i's command for target j (in list order), or the sleep when j = m |
| `Fade.ScheduleLength` | airfoil_async.py:438-447 | a fade of t ticks over m targets is t(m + 1) steps, and none when t is not positive |
| `Fade.ScheduleEndsAtEnd` | airfoil_async.py:391-392 | the last tick sends exactly the end volume to every target |
| `Fade.Execute` | airfoil_async.py:388-394 | running a schedule leaves the state alone and uses at most one exchange per command, exactly one each when it completes |
| `Fade.ExecuteFollowsPlan` | airfoil_async.py:388-394 | when every exchange is answered, the run writes the schedule's commands, each with its drawn request id, and its sleeps, in schedule order, and succeeds |
| `Fade.FadeArgs` | airfoil_async.py:373-380 | non-number end volume or seconds, non-integer ticks and an end volume outside 0..1 are rejected, in that order |
| `Fade.FadeVolume` | airfoil_async.py:354-394 | rejected arguments raise before any exchange; a lookup failure propagates; zero ticks divide by zero; otherwise the one-target schedule runs with increment and wait rounded from the exact quotients |
| `Fade.Targets` | airfoil_async.py:426-432 | the targets are one per chosen cached speaker, in list order and with repeated ids kept, as an independent filter-then-map gives them |
| `Fade.Unknown` | airfoil_async.py:433-436 | the id reported is requested and carried by no target; none is reported only when every id is carried |
| `Fade.FadeSome` | airfoil_async.py:396-447 | argument errors raise before any exchange; after the fetch, zero ticks raise; when the counts differ and some id has no target it raises naming it; otherwise it runs the schedule of the targets with the rounded wait |
| `Fade.UnknownIdMissedWhenCountsAgree` | airfoil_async.py:433-436 | two speakers sharing an id hide an id that matches nobody |
| `Fade.FadeAll` | airfoil_async.py:449-452 | a fetch, then `fade_some` on the ids of the connected cached speakers |
| `Fade.FadeAllNobodyConnected` | airfoil_async.py:449-452 | with no connected speaker `fade_all` raises the ids-or-names error |
| `Fade.FadeExample` | airfoil_async.py:385-394 | 0.2 to 0.8 in 4 ticks over 4 s sends 0.35, 0.5, 0.65, 0.8, each followed by a 1 s sleep |
| `Fade.FadeOvershoots` | airfoil_async.py:386-390 | a rounded increment can carry an intermediate command above 1.0 |
| `Mute.MuteStep` | airfoil_async.py:457-462 | an audible speaker is remembered, sent 0 and its volume returned; a silent one changes nothing, sends nothing and returns 0 |
| `Mute.UnmuteStep` | airfoil_async.py:468-478 | a silent speaker gets its remembered volume and is forgotten, or the default; an audible one sends nothing and returns its volume |
| `Mute.MuteThenUnmute` | airfoil_async.py:454-478 | unmuting a muted speaker restores the volume it had and forgets it |
| `Mute.UnmuteTwice` | airfoil_async.py:464-478 | a second unmute of a still-silent speaker falls back to the default |
| `Mute.Apply` | airfoil_async.py:459-461 | a step's command is correlated when there is one, and the memory is updated either way |
| `Mute.ApplySent` | airfoil_async.py:459-460 | the only request a step adds is its volume command for the selected id |
| `Mute.Mute` | airfoil_async.py:454-462 | a lookup failure propagates; otherwise the mute step on the found speaker |
| `Mute.Unmute` | airfoil_async.py:464-478 | a lookup failure propagates; otherwise the unmute step on the found speaker |
| `Mute.MuteBehaviour` | airfoil_async.py:454-462 | after a successful lookup, mute returns the prior volume and sends only a zero-volume command for that speaker |
| `Mute.PickedCons` | airfoil_async.py:491-492 | the chosen speakers of a list are the head's choice plus the tail's |
| `Mute.MuteLoop` | airfoil_async.py:491-499 | the memory only grows, by chosen audible speakers, and keeps every other entry; on success all of them are remembered; every command sent is a zero volume for one of them |
| `Mute.MuteReport` | airfoil_async.py:491-500 | a completed loop reports exactly the chosen ids; each shows the last chosen speaker with it, as the memory holds it for a silent one, and an audible one is now remembered as itself |
| `Mute.MuteReportsCons` | airfoil_async.py:491-499 | the report of the whole loop follows from the report of its tail and the first speaker's turn |
| `Mute.MuteLoopStep` | airfoil_async.py:493-499 | one turn records a chosen speaker as shown, remembering an audible one first |
| `Mute.MuteSendsAll` | airfoil_async.py:493-497 | when every connection accepts the greeting, a completed loop has sent a zero volume for every chosen audible speaker |
| `Mute.ExchangeWrites` | airfoil_async.py:51-56 | an exchange that did not fail, with a server that accepts the greeting, wrote its request |
| `Mute.ChosenIdsCons` | airfoil_async.py:491-492 | the chosen ids of a list split over its head and tail |
| `Mute.SilencedChosen` | airfoil_async.py:491-493 | only chosen speakers are silenced |
| `Mute.LastChosenCons` | airfoil_async.py:491-492 | the head is the last chosen speaker with its id exactly when no chosen speaker of the tail shares it |
| `Mute.MuteSome` | airfoil_async.py:480-500 | list-argument errors raise before any exchange; a failed fetch propagates; otherwise the loop runs over the fetched speakers; on success the returned dict maps exactly the chosen ids, each to its last chosen speaker or the remembered one, and with every greeting accepted each chosen audible speaker was sent a zero volume |
| `Mute.UnmuteLoop` | airfoil_async.py:513-526 | the state never changes; every command sent restores a chosen silent speaker's remembered volume or the default |
| `Mute.UnmuteReport` | airfoil_async.py:513-527 | a completed loop reports exactly the chosen ids, each with the volume its last chosen speaker restores or keeps |
| `Mute.UnmuteReportsCons` | airfoil_async.py:513-526 | the report of the whole loop follows from the report of its tail and the first speaker's turn |
| `Mute.UnmuteLoopStep` | airfoil_async.py:515-526 | one turn records a chosen speaker with the volume it restores or keeps |
| `Mute.UnmuteSendsAll` | airfoil_async.py:515-524 | when every connection accepts the greeting, a completed loop has sent the restoring volume to every chosen silent speaker |
| `Mute.UnmuteSome` | airfoil_async.py:502-527 | list-argument errors raise first; the mute memory is never changed; on success the returned dict maps exactly the chosen ids to the volumes restored or kept, and with every greeting accepted every chosen silent speaker was sent its restoring volume |
| `Mute.MuteSomeThenUnmute` | airfoil_async.py:480-527 | after `mute_some` completes, `unmute_some` gives each speaker it silenced, now at volume 0, the volume `mute_some` reported for it |
| `Mute.MuteAll` | airfoil_async.py:529-532 | success returns True; `mute_some` is asked for the ids of the audible cached speakers |
| `Mute.UnmuteAll` | airfoil_async.py:534-538 | success returns True and the memory is unchanged; `unmute_some` is asked for the silent speakers |
| `Mute.AllChoosesByVolume` | airfoil_async.py:529-538 | mute-all picks exactly the audible ids and unmute-all exactly the silent ones |
| `Mute.MuteAllWhenAllSilent` | airfoil_async.py:529-532 | when every speaker is silent, mute-all raises the ids-or-names error |
| `SyncClient.Abort` | airfoil.py:130-135 | an exception keeps the state and the commands written before it |
| `SyncClient.GetSpeakers` | airfoil.py:80-102 | one exchange; the cached dictionary is replaced exactly when a reply with speakers arrives, by a dictionary with unique names |
| `SyncClient.ValuesOf` | airfoil.py:137 | the speakers searched are the dictionary's values |
| `SyncClient.FindSpeaker` | airfoil.py:126-156 | the same rules as the asynchronous lookup, over the values of the name-keyed dictionary |
| `SyncClient.SetConnected` | airfoil.py:104-124 | a speaker already in the requested state gives True without a command; otherwise the reply with the matching `replyID` decides |
| `SyncClient.SetEach` | airfoil.py:175-178 | a completed pass uses at least one exchange per id |
| `SyncClient.ToggleSpeakers` | airfoil.py:167-178 | a failed or empty fetch fails; success needs a fetched dictionary |
| `SyncClient.GetSources` | airfoil.py:181-213 | one exchange asking for icons of size 16; the cache is replaced exactly when a reply with a category list arrives, by the name-keyed dictionary of the first such reply, with unique keys |
| `SyncClient.GetCurrentSource` | airfoil.py:298-343 | one exchange with the pruned metadata request; the cache is replaced exactly when a reply with metadata arrives, by the record built from the first such reply |
| `SyncClient.Refresh` | airfoil.py:249-251 | sources are fetched only when none are cached, and then the current source |
| `SyncClient.SelectChosen` | airfoil.py:252-296 | the choice runs over the dictionary's values; a settled result is the lenient verdict of the first reply carrying the request id (False when that reply lacks `data.success`); once written, it settles exactly when such a reply arrives |
| `SyncClient.SetSource` | airfoil.py:215-296 | more than one selector raises before any fetch; otherwise the refresh, the choice and the select command |
| `SyncClient.SetSourceSettles` | airfoil.py:280-296 | the value `set_source` returns is `data.success` of the first reply carrying the select command's request id, and False when that reply has no `data.success` |
| `SyncClient.FoundIsLastOfName` | airfoil.py:95-156 | the speaker found is the record of the last reply entry carrying its name |
| `SyncClient.ShadowDict` | airfoil.py:95-100 | two speakers sharing a name leave one entry, in the first one's position, holding the second |
| `SyncClient.PairDict` | airfoil.py:95-100 | two differently named speakers give two entries in order |
| `SyncClient.ShadowListing` | airfoil.py:95-100 | the dictionary's names and values for a shared name, in order |
| `SyncClient.SharedNameShadows` | airfoil.py:95-141 | a speaker whose name a later speaker reuses can no longer be found by its id |
| `SyncClient.MissingById` | airfoil.py:136-141 | an id no speaker carries is not found |
| `SyncClient.PickOnlyFirst` | airfoil.py:137-139 | when only the first entry matches, it is picked |
| `SyncClient.ListKeepsShadowed` | airfoil_async.py:144-149 | the asynchronous client's list keeps both speakers that share a name |
| `SyncClient.FoundFirstById` | airfoil_async.py:85-90 | in a list, the first speaker is found by its own id |
| `Table.Nones` | req/utils.py:4-5 | `max(n, 0)` elements, all None |
| `Table.Bools` | req/utils.py:8-9 | `'yes'` exactly when the value is truthy, and `'no'` otherwise |
| `Table.BoolsExamples` | tests/test_utils.py:14-19 | 1, -1 and `'hello'` give yes; 0 and None give no |
| `Table.ColumnWidth` | req/utils.py:40-46 | a column width is at most its size, at least each capped text length, and equal to one of them |
| `Table.Longest` | req/utils.py:41-45 | the longest of a header and its column's cells |
| `Table.ColumnWidthFormula` | req/utils.py:39-46 | a column width is `min(size, longest header or cell)` |
| `Table.Column` | req/utils.py:43-44 | the n-th cell of every row |
| `Table.Widths` | req/utils.py:39-46 | widths exist exactly when every row and the headers have a cell for every size, and then follow the formula per column |
| `Table.Widest` | req/utils.py:22-25 | the leftmost widest column |
| `Table.SumUpdate` | req/utils.py:26 | changing one width changes the sum by the difference |
| `Table.FitToTerm` | req/utils.py:13-28 | widths never grow; already-fitting widths are kept; otherwise the span shrinks to exactly the terminal width |
| `Table.BalancedStep` | req/utils.py:22-25 | narrowing the leftmost widest column keeps the shrinking balanced |
| `Table.FitStaysBalanced` | req/utils.py:21-27 | the shrinking loop keeps the columns balanced from any balanced start |
| `Table.FitIsBalanced` | req/utils.py:21-27 | shrinking spreads the loss: no narrowed column ends more than one narrower than any other column |
| `Table.Repeat` | req/utils.py:64 | `'-' * n` has `max(n, 0)` copies |
| `Table.Cut` | req/utils.py:58-59 | a positive width cuts `min(len, width)` characters, and at least one of a non-empty text |
| `Table.Heads` | req/utils.py:58 | each line cell is the first slice of its text |
| `Table.Tails` | req/utils.py:59 | each rest cell is what the slice leaves |
| `Table.TailsShrink` | req/utils.py:54-61 | each pass keeps the widths usable and shortens the row's text while any remains |
| `Table.Wrap` | req/utils.py:53-61 | every emitted line has one cell per column |
| `Table.WrapNext` | req/utils.py:54-61 | a row with text emits its first slices and then wraps the rest |
| `Table.WrapNone` | req/utils.py:54 | a row emits no line exactly when all its cells are empty |
| `Table.WrapFirst` | req/utils.py:54-60 | a row that emits anything has text and starts with its first slices |
| `Table.WrapLater` | req/utils.py:54-61 | later lines are the lines of the rest |
| `Table.WrapFits` | req/utils.py:58 | every emitted cell fits its width |
| `Table.Slices` | req/utils.py:58 | the n-th cell of each emitted line |
| `Table.ColumnStep` | req/utils.py:58-59 | a first slice followed by the slices of the rest gives back the cell |
| `Table.RowRecovers` | req/utils.py:54-61 | one pass of the wrap loop keeps every cell recoverable |
| `Table.WrapRecovers` | req/utils.py:53-61 | concatenating a column's slices over the emitted lines gives back the cell |
| `Table.FirstLineShowsText` | req/utils.py:54-60 | the first emitted line has text |
| `Table.WrapLinesShowText` | req/utils.py:54-61 | every emitted line has text |
| `Table.WrapEmptyCell` | req/utils.py:57-59 | an empty cell stays empty on every line |
| `Table.CutShort` | req/utils.py:58-59 | a slice shorter than its width leaves nothing |
| `Table.ShortFirstEnds` | req/utils.py:54-61 | once the first slice is short, the cell is blank on every later line |
| `Table.WrapShortSliceEnds` | req/utils.py:54-61 | once a slice is short, the cell is blank on every later line |
| `Table.Pad` | req/utils.py:51 | `{:<w}` left-aligns: the text, then spaces up to the width |
| `Table.Render` | req/utils.py:50-51 | a line of fitting cells is as long as the widths plus one space per column |
| `Table.RenderAll` | req/utils.py:60 | each emitted line is formatted with the template |
| `Table.WrapAllFit` | req/utils.py:57-60 | every cell of every emitted line fits its width |
| `Table.ProcessRow` | req/utils.py:53-61 | an all-empty row emits nothing; a short or long row, a negative width and a zero width under text fail; otherwise the wrapped lines, each as long as the template |
| `Table.Dashes` | req/utils.py:64 | one run of dashes per column, as wide as the column |
| `Table.WrapFitting` | req/utils.py:54-61 | a row whose cells all fit emits one line holding it |
| `Table.DashesOneLine` | req/utils.py:64-65 | the dash row fits on one line |
| `Table.ProcessRows` | req/utils.py:68-69 | the rows fail exactly when one of them does, and every line has the template's length |
| `Table.RowList` | req/utils.py:33-34 | a flat list of strings is one row; an empty list fails on `rows[0]` |
| `Table.Layout` | req/utils.py:35-48 | widths exist exactly when every row has a cell per size; they never exceed the sizes, fit the terminal width, and fill it exactly when the natural widths overflow it |
| `Table.Assemble` | req/utils.py:63-69 | headers, then one dash line, then the rows; every line has the template's length |
| `Table.PrintTable` | req/utils.py:12-72 | the rows check, then the layout, then the assembly, each failure propagating |
| `Table.DashesLine` | req/utils.py:64-65 | with positive widths the dash row is exactly one formatted line |
| `Table.ShrunkLinesOverflow` | req/utils.py:13-51 | when the natural widths overflow the terminal, every printed line is one character longer than the terminal width |
| `TableExamples.ExampleColumns` | tests/test_utils.py:22-25 | the columns of the test's table |
| `TableExamples.ExampleColumnWidths` | tests/test_utils.py:22-25 | the test's column widths are 1, 6, 5, 7 |
| `TableExamples.ExampleWidths` | tests/test_utils.py:21-34 | the second column is capped at 6 and the others take their longest text |
| `TableExamples.ExampleLayout` | tests/test_utils.py:21-34 | the test's table fits 80 columns without shrinking |
| `TableExamples.PlusWrap` | tests/test_utils.py:24-34 | a run of n signs in the six-wide column wraps into lines of six signs, the remainder on the last line |
| `TableExamples.LongLines` | tests/test_utils.py:24-34 | the 25-sign cell makes its row five lines long: six signs in each of the first four lines, one in the last, the other cells only on the first |
| `TableExamples.ExampleOutput` | tests/test_utils.py:21-37 | the test's table prints exactly the eight expected lines, including the trailing blanks |
| `Base.LastIndex` | airfoil_async.py:86-88 | the last index satisfying a test, or none when nothing does |
| `Base.LastIndexAgrees` | airfoil_async.py:86-88 | two tests that agree on every element find the same last index |

## Left out

- Sockets, the event loop and connection handling are not modelled (`socket`, `asyncio.open_connection`, `run_in_loop`, `writer.close`). Each exchange reads a given greeting answer and a given reply stream, and returns the commands it wrote as a trace.
- `asyncio.sleep` is a `Sleep` event in the trace; no time passes.
- `random.randint(1, 1000)` is a parameter: the `k`-th draw of `Net.draw`, whose type is the numbers 1..1000.
- Python's `str()` of a command dictionary is an abstract `render` parameter. Only the `': '`/`', '` compaction and the framing around it are modelled.
- `json.loads` is not modelled. The byte decoders return the raw payload bytes, and the consumers read structured `Reply` values.
- Binary floating point is not modelled. Volumes are integer millionths and seconds are integer ten-thousandths. `round(x, 6)` and `round(x, 4)` of a quotient are rounding to nearest, halves to even, on the exact rational. The docstring's "rounded down" wording is not followed, since the code calls `round`.
- Fade.FadeVolume: a start volume is taken to be a whole number of millionths, so `round(start + (i + 1) * increment, 6)` is exact; a volume with more digits would be rounded by the server, which is not modelled.
- The terminal size probe and the final `print` loop of `print_table` are not modelled. The width is a parameter, with 80 when no size is available, and the lines are returned.
- Table.ProcessRow: a zero width under a non-empty cell makes the source loop forever; the model reports a `WrapsForever` error instead. A negative width (Python slices from the end) is reported as an error too rather than modelled.
- Table.ProcessRow: when a row has more cells than there are widths and a width is negative, the source's error depends on which is met first; the model reports the missing width before the negative one.
- Table.Bools: values are limited to None, booleans, integers and strings; other Python objects' truthiness is not modelled.
- Table.Nones: the `TypeError` for a non-integer argument (tests/test_utils.py:11-12) is not modelled; the argument is an integer.
- `print_table` called without `rows` or `sizes` raises a Python `TypeError` before running; the model's signature always has them.
- The frame generators never end by themselves. A reader that runs out of input ends with `Stalled` (more bytes are awaited) or `StreamEnded` (no further reply), where the program would block.
- Client.SetEach: states how many exchanges a completed pass uses and that it writes only `subscribe` requests and changes in its direction, not that each id gets its change. `toggle_speakers` ignores each call's result but not its exceptions, and an exception ends the pass.
- SyncClient.SetEach: as for the asynchronous `SetEach`, only the exchange count of a completed pass is stated.
- SyncClient.ToggleSpeakers: the Python method returns `None`; the model returns unit and states only the fetch's failure cases.
- Client.Refresh: states only what it leaves unchanged and the exchange count; its two fetches are `Client.GetSources` and `Client.GetCurrentSource`.
- SyncClient.Refresh: as for `Client.Refresh`.
- Mute.UnmuteSome: that every chosen silent speaker is sent its volume is stated only when every connection accepts the greeting; with a refused greeting `_get_result` writes nothing and the loop goes on, which the model follows.
- Mute.MuteSome: likewise, the zero volume of every chosen audible speaker is stated as sent only when every greeting is accepted.
- Keywords.Blank: keeps ASCII letters and digits only, where Python's `str.isalnum` is Unicode. `get_keywords('Café')` is `['café']` in the program and `['caf']` in the model.
- Text.ToLower: lower-cases `A`-`Z` only, where Python's `str.lower` is Unicode. The program matches id `KÜCHE` with `küche`; the model does not.
- AsyncDecoder.DigitsIn: keeps the ASCII digits `0`-`9` only, where Python's `str.isdigit` also accepts other Unicode digits. For the prefix `1²;` the program keeps `²` and `int('1²')` raises ValueError; the model drops it and reads 1.
- Speaker records read their fields with `.get` (airfoil_async.py:146-148), so a reply speaker without `name` gives None and `get_keywords(None)` raises TypeError. Source records index `src['friendlyName']` (airfoil_async.py:212) and raise KeyError when it is missing. The model's reply records always carry these fields, so neither exception is modelled.
- Error messages (`sys._getframe` caller names and message texts) and `print` side effects are not modelled. Errors are an `Error` datatype naming the failing selector or argument.
- Python truthiness of selectors is modelled for strings (non-empty) and keyword lists. A keywords argument that is not a list is a separate case; its truthiness is a flag.
- `airfoil.py`'s `set_volume` is a `pass` stub and is not modelled.
- The subscription `watch` and the media commands (`play_pause`, `next_track`, `last_track`) are outside the modelled core.
- `get_first_airfoil` and `get_airfoil_by_name` are outside the modelled core: they are constructors with hard-coded addresses.
- Server discovery (airfoil_finder.py), the command line (airfoil_cli.py), the HTTP adapters and the experiment scripts are not part of this model.
- `_parse_volume`, `find_source` and `find_speaker(unknown=...)`, which the live tests call, are not defined in the client files and are not part of this model.

## Findings

| source | as written | input that shows it | evidently intended | confidence | as-written member | corrected member |
|---|---|---|---|---|---|---|
| airfoil_async.py:62-66 | the body loop runs `while num_bytes > 1`, so it stops with one byte still owed whenever the last byte arrives in a separate read, and appends no `}` for it | the frame `2;{}` delivered as `2;{` and then `}`: the first read returns `{`, one byte is owed, the loop stops, and the body is `{` (one burst gives `{}`) | read until nothing is owed (`while num_bytes > 0`), so the body depends only on the bytes and not on how they arrive | not executed | `AsyncDecoder.AsWrittenDependsOnArrival` | `AsyncDecoder.CorrectedIgnoresArrival` |
| airfoil_async.py:63-66 | each read asks for at most 4096 bytes, so with `while num_bytes > 1` a body of 4096k + 1 bytes stops one byte short even when it arrived in one burst | a 4097-byte body in one burst: the first read takes 4096 bytes, one byte is owed, the loop stops, and the last byte is never read | read until nothing is owed, so every body of N bytes comes back whole | not executed | `AsyncDecoder.OneBurst4097` | `AsyncDecoder.CorrectedOneBurst4097` |
