# Verified models of the Qualcomm daemons and the audio HAL

This project models the algorithmic parts of a device tree for Qualcomm phones
and proves what they compute.  All of the modelled code is C that works in
place, so most components have two layers: functions that say what a step gives,
with the theorems about them, and classes or methods with fields, arrays and
loops that are proved to give the same.

`dafny verify dfyconfig.toml` checks everything.

| component | modules |
|---|---|
| QMI codec: schema-driven TLV encoder and decoder | `QmiSchema`, `QmiWire`, `QmiEncode`, `QmiDecode`, `QmiRoundTrip`, `QmiMessage`, `QmiEncodeExact`, `QmiCodec`, `QmiLimits`, `QmiShipped`; in place: `QmiEncoder`, `QmiDecoder` |
| QRTR name service | its tables: `Registry`, `RegistryRefines`, `RegistryRuns`, `RegistryEvery`, `RegistryObservers`, `RegistryReplica`, `RegistryExamples`, `RegistryDiverges`; the protocol they refine: `NameService`, `NameServiceRuns`, `NameServiceObservers`, `NameServiceReplica`; in place: `NameServer`; its containers: `ProbeTable`, `ProbeTableExact`, `Hash`, `LinkedList` |
| JSON parser of the protection-domain mapper | `Json`, `JsonRoundTrip`, `JsonLenient`, `JsonLoops`; in place: `JsonParser` |
| FIR filter | `Fir`, `FirBounds`; in place: `FirFilter` |
| Echo reference (AEC) timestamps | `Aec`; in place: `AecReference` |
| Growing string table | `Assoc` |
| Remote file system | `Rmtfs`; in place: `RmtfsDaemon`, `RmtfsHandles` |
| TFTP reader | `Tftp`, `TftpRuns`; in place: `TftpServer` |
| shared types | `Basics` |

How things are modelled:

- A C struct handled by the QMI codec is its sequence of bytes; an element table
  is a flat sequence of elements with offsets, nested tables included.  `View`
  reads a struct as its owner does.  An access outside a buffer or a struct is an
  outcome of its own (`Overrun`), so the bounds results are about the code.
- The registry of the name service is what the program holds: a probe table of
  nodes and for each node a probe table of servers, with empty slots, tombstones
  and growth, keyed by the hashes of node and port.  Beside it is the protocol, a
  step relation over a finite map of servers.  A registry shows a protocol state
  if searching it finds what the state has; every handler is proved to be a step
  as long as no port is put behind a tombstone, and exactly so long.  What holds in
  every run, tombstones or not, is proved on the tables themselves.  The theorems
  of the protocol (`ObserverAccuracy`, `ReplicaConverges` and others) are carried over
  to runs of the registry and are listed below in that form.  Sends append to a log
  and always succeed.
- What does not end is part of the model: a recursion without end is an outcome of
  the JSON functions (`LOOPS`), and the endless loop of the TFTP handler sends its
  packets and leaves the server hung.
- What leaves a table or a buffer is an outcome too: `OUTSIDE` for the empty JSON
  text, `BeforeTable` for a caller id that turns negative, `Past` for a packet
  shorter than its header.  The bytes between the end of the shadow buffer and a
  write behind it are any bytes (`Gap`).
- Integer width is explicit where it matters: 32-bit hash and accumulator, 16-bit
  block counter, 32-bit sector position, one-byte counts.  A signed 32-bit
  overflow of the accumulator, undefined in C, is modelled as wrapping.
- Files, sockets, clocks and allocation are parameters (the file contents, the
  bytes a FIFO took, whether a file could be opened) or always succeed.

Where the code does not do what one would expect, the model does what the code
does and the exact condition is proved:

- A count of one byte overwrites only the low byte of the running length, so a
  count comes back exactly when the length left over fits the bytes of the count
  (`CountComesBack`).  A schema keeps longer arrays away from it (`StaleSafe`); a
  table that does not is encoded and never decoded (`EncodedThenRefused`).
- A string inside a nested struct is checked without the TLV header
  (`StringOverrun`).  A string that fills its field is decoded with its terminator
  past the field (`StringTlv`).  A message that begins with a string declared as a
  variable-length array is decoded but never encoded (`LeadingStringRefused`).
- Putting a key behind a tombstone leaves the key's old entry in the probe table;
  the table stays a map exactly when no tombstone comes first (`PutIs`), and the
  tables of a run stay maps exactly as long as this does not happen
  (`CleanExactly`).  In the name service a client that registers again there is
  still found after it was removed (`LeftBehind`), and after its node said bye
  (`LeftByBye`).  In every run a removal leaves no server exactly when the port had
  one entry at most (`RemovalExactly`), and a bye exactly when no port had entries
  on both sides of its home (`ByeExactly`).
- A hello makes a name server announce its servers again, which can put them
  behind a tombstone at the peer: the peer keeps a server that is gone, although
  the tables of the sender stay maps (`ReplicaKeeps`).
- A table that grows finds a port with several entries under the last of them, not
  under the one found before (`NewServerExactly`).
- A server that registers again under the same address and no longer matches an
  observer is not withdrawn there (`HiddenFromObserver`); observers are right in a
  run exactly when this does not happen (`ObserversExactly`).
- The parser does not look at the last letter of a keyword (`KeywordAccepts`),
  and reads the last character again at the end of the text (`UnclosedArray`), so
  that a bracket that ends the text where a value is due loops.  A scanner with a
  stack tells exactly which texts these are (`LoopsExactly`).
- The filter's accumulator is exact exactly for the taps of `AccumulatorExact`; the
  second lane leaves the tap buffer exactly in the cases of `SecondLane`, and the
  state buffer exactly for the blocks that `BlockInside` excludes.
- A read that takes samples before their timestamp is queued puts samples and
  timestamps out of step (`ReadKeeps`, `EarlyRead`), and so does a timestamp that
  the FIFO does not take (`LostStampKeeps`, `LostStampMisleads`).
- A string table that starts with fewer than six cells fills up (`SixCells`).
- Sector positions wrap at 2^23 sectors (`SectorBaseExact`).  A closed handle still
  answers the node that was given it last (`Answers`); a write through it makes the
  slot neither open nor free until it is closed again (`StrayExactly`), and ten such
  slots leave no handle to open (`HandlesRunOut`).  A caller id of 2^31 or more is
  looked up before the table (`RunInside`).
- A TFTP transfer without a window size stops after the first block
  (`NoWindowCompletes`).  At 65536 full blocks the block counter wraps: the receiver
  is then given block 0 again (`WrongBlock`), and what it holds is always a prefix
  of the file exactly for shorter files (`PrefixExactly`).  A transfer can complete
  exactly for at most 65536 blocks, or for a file that repeats itself
  (`CompletesWhen`).  A file of full blocks has no short last block (`ShortBlock`),
  by which section 2 of RFC 1350 lets the receiver know the end.

## Model

| member | source | states |
|---|---|---|
| QmiMessage.RoundTrip | qcom/qrtr/lib/qmi.c:634-744 | for every well-formed schema and every struct that fits it, decoding the struct's wire form into a cleared struct uses all bytes and gives the same flags, counts, data, nested structs and strings |
| QmiMessage.DecodeAnyOrder | qcom/qrtr/lib/qmi.c:608-741 | the TLVs of a struct in any order, repeated, or mixed with unknown optional TLVs decode to a struct that reads the same |
| QmiMessage.FindStart | qcom/qrtr/lib/qmi.c:608-620 | looking up a TLV type gives the first element of the one group with that type |
| QmiMessage.KnownStep | qcom/qrtr/lib/qmi.c:634-668 | one TLV of a known type moves the decoder past it and decodes its group |
| QmiMessage.UnknownStep | qcom/qrtr/lib/qmi.c:647-668 | an unknown TLV of an optional type is passed over and changes nothing |
| QmiRoundTrip.NestedRT | qcom/qrtr/lib/qmi.c:634-744 | decoding the elements of a nested struct restores its view and leaves the rest alone |
| QmiRoundTrip.GroupRT | qcom/qrtr/lib/qmi.c:670-741 | decoding one group restores flag, count and payload and leaves every other field alone, whatever length was left over from earlier elements |
| QmiRoundTrip.StringRT | qcom/qrtr/lib/qmi.c:558-594 | a string decodes to itself with its terminator, with and without a length prefix |
| QmiRoundTrip.StructsRT | qcom/qrtr/lib/qmi.c:512-539 | an array of nested structs decodes element by element to the same views and takes exactly its wire bytes |
| QmiEncodeExact.EncodeExact | qcom/qrtr/lib/qmi.c:332-463 | the encoder succeeds if and only if counts, strings and room allow it, and then its bytes are the concatenated TLVs, each three bytes of header and its payload |
| QmiEncodeExact.NestedExact | qcom/qrtr/lib/qmi.c:332-463 | a nested table encodes to the bytes of its payloads, without TLV headers, or not at all |
| QmiEncodeExact.EncodeInBuffer | qcom/qrtr/lib/qmi.c:237-318 | no byte is written outside the buffer when no string is inside a nested struct |
| QmiEncodeExact.StringOverrun | qcom/qrtr/lib/qmi.c:276-318 | a string runs over the buffer exactly when it is nested and the room left is short of the enclosing TLV header |
| QmiEncodeExact.NestedStringPastBuffer | qcom/qrtr/lib/qmi.c:302-307 | a concrete nested string that is written past every buffer of three to five bytes |
| QmiCodec.EncodeThenDecode | qcom/qrtr/lib/qmi.c:332-744 | whatever the encoder produces, if each TLV is below 65536 bytes, the decoder turns back into a struct that reads the same |
| QmiCodec.MessageRoundTrip | qcom/qrtr/lib/qmi.c:757-843 | type, transaction, message id and length of a message arrive unchanged and the struct reads as at the sender |
| QmiCodec.EmptyAllowed | qcom/qrtr/lib/qmi.c:144-189 | the minimum length of a message is 0 if and only if every TLV of its schema is optional |
| QmiCodec.EncodeMessage | qcom/qrtr/lib/qmi.c:757-795 | the packet holds header and encoded struct exactly when it has room and the struct is accepted; without a struct the header alone, exactly when every TLV is optional; otherwise an error |
| QmiCodec.DecodeMessage | qcom/qrtr/lib/qmi.c:821-843 | a packet is decoded exactly when type and id match, the header is whole and its TLVs decode; the transaction id is the header's; a shorter packet of the expected type is read past its end |
| QmiLimits.CountComesBack | qcom/qrtr/lib/qmi.c:681-700 | a counted group goes on with the number in its count bytes if and only if the length left over from earlier elements fits these bytes |
| QmiLimits.StaleRefused | qcom/qrtr/lib/qmi.c:681-700 | if it does not fit and the array is shorter, the group is invalid whatever its bytes |
| QmiLimits.StaleMessage | qcom/qrtr/lib/qmi.c:634-744 | a TLV that leaves such a length makes a counted TLV right behind it invalid, in any message |
| QmiLimits.EncodedThenRefused | qcom/qrtr/lib/qmi.c:332-744 | an array of 300 before a one-byte count: every struct of this table is encoded, and no message of it is decoded |
| QmiLimits.StaleString | qcom/qrtr/lib/qmi.c:681-741 | a string declared as a variable-length array is refused if and only if the left-over length is above its capacity |
| QmiLimits.StringTlv | qcom/qrtr/lib/qmi.c:558-594 | a string TLV is refused if it is longer than the field, runs over the field if and only if it fills it, and is stored if it is shorter |
| QmiLimits.StringPastField | qcom/qrtr/lib/qmi.c:558-594 | from every state of the decoder a string TLV that fills its field ends in an overrun |
| QmiEncoder.SkipToNextElem | qcom/qrtr/lib/qmi.c:119-135 | the loop skips to the element after the current group |
| QmiEncoder.EncodeBasicElem | qcom/qrtr/lib/qmi.c:206-217 | copies the bytes of all items to the cursor and nothing else |
| QmiEncoder.EncodeStringElem | qcom/qrtr/lib/qmi.c:276-318 | writes length prefix and characters as the function does, or reports the same error |
| QmiEncoder.EncodeStructElem | qcom/qrtr/lib/qmi.c:237-258 | encodes the structs of an array one behind the other |
| QmiEncoder.EncodeTable | qcom/qrtr/lib/qmi.c:332-463 | the loop over the table writes exactly the bytes of the encoding function; the buffer before them is left alone, and after a success the buffer behind them too |
| QmiDecoder.DecodeStringElem | qcom/qrtr/lib/qmi.c:558-594 | stores characters and terminator in the string's field only |
| QmiDecoder.DecodeStructElem | qcom/qrtr/lib/qmi.c:512-539 | decodes the structs of an array in place |
| QmiDecoder.DecodeTable | qcom/qrtr/lib/qmi.c:634-744 | the loop over a nested table updates the struct as the decoding function does |
| QmiDecoder.FindElem | qcom/qrtr/lib/qmi.c:608-620 | the first element with a TLV type, or none |
| QmiDecoder.DecodeTlvs | qcom/qrtr/lib/qmi.c:634-744 | the loop over the TLVs updates the struct as the decoding function does and returns the bytes used or the error |
| QmiShipped.ShippedSchemas | qcom/rmtfs/qmi_rmtfs.c:55-143 | the tables of the transfer request and of the open response are well-formed schemas |
| QmiShipped.LeadingStringRefused | qcom/qrtr/lib/qmi.c:356-368 | a message that begins with a string declared as a variable-length array is never encoded |
| QmiShipped.OpenRequestRefused | qcom/rmtfs/qmi_rmtfs.c:43-53 | this is the case for the open request, whose schema is well-formed |
| Hash.HashInverse | qcom/qrtr/src/hash.c:22-25 | multiplying by 244002641 modulo 2^32 undoes the hash |
| Hash.HashInjective | qcom/qrtr/src/hash.c:22-25 | different 32-bit ids have different hashes |
| ProbeTable.PutUpdates | qcom/qrtr/src/map.c:64-112 | a put leaves every key with one entry if and only if no tombstone comes before the key's entry; then the table stands for the updated map |
| ProbeTable.PutIs | qcom/qrtr/src/map.c:64-147 | any put, growth included, keeps every entry reachable, and a table that is a map stays one if and only if no tombstone comes before the key's entry; then it is the updated map |
| ProbeTable.FindIs | qcom/qrtr/src/map.c:149-171 | in any table with reachable entries the search finds an entry of the key if there is one; in a map it finds the value |
| ProbeTable.RemovedIs | qcom/qrtr/src/map.c:188-198 | a removal keeps every other entry reachable, and takes the key out of a map |
| ProbeTableExact.PutFound | qcom/qrtr/src/map.c:64-112 | in any table whatever, what was put last is what a search finds |
| ProbeTableExact.PutOthers | qcom/qrtr/src/map.c:64-147 | every other key is found with the value it had; in a table that grows, with the last of its entries in slot order |
| ProbeTableExact.RemovedExactly | qcom/qrtr/src/map.c:188-198 | with reachable entries, a removed key is not found if and only if it had one entry at most |
| ProbeTableExact.RemovedEachExactly | qcom/qrtr/src/ns.c:335-353 | a visit that removes each visited entry by its key leaves of every key as many entries as are on the side of its home that has fewer; the key is gone if and only if all its entries were on one side |
| ProbeTable.RemoveUpdates | qcom/qrtr/src/map.c:188-198 | a tombstone takes exactly its key out of the map and keeps every other entry reachable |
| ProbeTable.ListingIsContents | qcom/qrtr/src/map.c:205-233 | the slots in order list each entry of the map exactly once, and the number of live slots is the size of the map |
| ProbeTable.PutBehindTombstone | qcom/qrtr/src/map.c:76-79 | a table of any size in which putting a key again leaves two entries, the older one surfacing after a removal |
| ProbeTable.Table.HashSlot | qcom/qrtr/src/map.c:64-87 | finds the first free slot or the key's slot, fails exactly when the table is full, and never runs through all slots in vain |
| ProbeTable.Table.Locate | qcom/qrtr/src/map.c:91-112 | one growth is always enough, and it happens exactly when every slot is live |
| ProbeTable.Table.Reput | qcom/qrtr/src/map.c:91-112 | the slots become those of the put function, in every table; in a map the replaced value is returned, and the count is the number of live slots |
| ProbeTable.Table.Rehash | qcom/qrtr/src/map.c:119-147 | all entries are put one by one into a table of 256 more slots, which does not grow meanwhile |
| ProbeTable.Table.Find | qcom/qrtr/src/map.c:149-171 | the slot of the search function; in a map, found if and only if the key is there, with its value |
| ProbeTable.Table.GetItem | qcom/qrtr/src/map.c:178-186 | the value that the search finds, if any |
| ProbeTable.Table.Remove | qcom/qrtr/src/map.c:188-198 | the slots become those of the removal function; tells whether the key was there |
| ProbeTable.Table.Clear | qcom/qrtr/src/map.c:42-54 | empties the table and releases every entry once |
| ProbeTable.Table.Visit | qcom/qrtr/src/map.c:205-233 | iteration visits the entries in slot order |
| ProbeTable.Table.RemoveEach | qcom/qrtr/src/ns.c:335-353 | the slots become those of the visiting removal; a map is left empty |
| LinkedList.List.Append | qcom/qrtr/src/list.h:37-46 | the node joins the end of the sequence, all links consistent |
| LinkedList.List.Remove | qcom/qrtr/src/list.h:72-86 | the node leaves the sequence, all links consistent, its own links cleared |
| LinkedList.List.RemoveWhere | qcom/qrtr/src/list.h:122-123 | a walk that removes nodes on its way keeps exactly the others, in order |
| NameService.MatchAgrees | qcom/qrtr/src/ns.c:118-127 | the query for a new lookup matches the same servers as the tests that notify later |
| NameServiceObservers.NewLookupAccurate | qcom/qrtr/src/ns.c:511-547 | in the protocol, the answer to a new lookup shows it exactly the servers that match, and shows other observers nothing |
| NameServiceObservers.ByeAccurate | qcom/qrtr/src/ns.c:335-353 | in the protocol, the notifications of a bye take out of every view exactly the servers of that node |
| RegistryRefines.HandleRefines | qcom/qrtr/src/ns.c:574-655 | from tables that are maps, a packet leaves maps if and only if it puts no port behind a tombstone, and then the handler's new tables and packets are a step of the protocol |
| RegistryRefines.NewServerShows | qcom/qrtr/src/ns.c:246-287 | a registration is the protocol's exactly when the port is absent or no tombstone comes before its record; refusals change nothing |
| RegistryRefines.DelAtShows | qcom/qrtr/src/ns.c:289-321 | removing the server at a port takes that address out of the protocol's map and notifies those that the protocol says |
| RegistryRefines.QueryLists | qcom/qrtr/src/ns.c:129-153 | the answer to a lookup, gathered over all tables, is every matching server exactly once |
| RegistryRuns.OthersKept | qcom/qrtr/src/ns.c:323-572 | in every run, tombstones or not, packets from other nodes leave the table of a node as it is, slot by slot, and every entry stays reachable |
| RegistryEvery.HandleTable | qcom/qrtr/src/ns.c:574-655 | a packet does to the slot table of its sender one put, one removal, one visiting removal or nothing, and nothing to any other table |
| RegistryEvery.EveryRecord | qcom/qrtr/src/ns.c:246-321 | in every run each slot of each table is filed under the hash of its port in the table of its node and has a service, a search finds a record of its own address, and every observer is local |
| RegistryEvery.NewServerExactly | qcom/qrtr/src/ns.c:444-481 | in every run an accepted registration is found at its address and leaves every other address as it was found, but for addresses with several entries in a table that grows, which are found with the last |
| RegistryEvery.RemovalExactly | qcom/qrtr/src/ns.c:380-509 | in every run an accepted removal of a client or server, local or remote, leaves none at its address if and only if the address had one entry at most; other addresses are found as before; exactly the observers of a removed client are gone |
| RegistryEvery.ByeExactly | qcom/qrtr/src/ns.c:335-378 | in every run a bye leaves a server of the node exactly where its port had entries on both sides of its home, as many as on the side with fewer; other nodes are untouched |
| RegistryRuns.CleanExactly | qcom/qrtr/src/map.c:64-87 | the tables stay maps throughout a run if and only if no packet puts a port behind a tombstone |
| RegistryRuns.Simulates | qcom/qrtr/src/ns.c:574-655 | such a run is a run of the protocol with the same packets sent, and at its end searches find what the protocol has |
| RegistryRuns.ObserversSee | qcom/qrtr/src/ns.c:289-547 | in every such run whose registrations hide no server, an observer's notifications replayed are exactly the servers that searches find and that match it |
| RegistryRuns.FreshObservers | qcom/qrtr/src/ns.c:289-547 | this holds in every run in which no registered port registers again, without further conditions |
| RegistryObservers.NewServerSeen | qcom/qrtr/src/ns.c:444-481 | an accepted registration that leaves maps keeps an observer accurate if and only if it does not replace a server that matched by one that does not |
| RegistryObservers.ObserversExactly | qcom/qrtr/src/ns.c:289-547 | in every run whose tables stay maps, all observers were accurate after every packet if and only if no accepted registration hid a server from one of them |
| RegistryExamples.LeftBehind | qcom/qrtr/src/map.c:76-79 | a run over ports 1 and 257 after which the server of a removed client is still found |
| RegistryExamples.LeftByBye | qcom/qrtr/src/ns.c:335-353 | a run over ports 175 and 431 after which a server of a node that said bye is still found |
| RegistryExamples.HiddenFromObserver | qcom/qrtr/src/ns.c:444-481 | a run after which an observer still shows a server whose port has registered another service |
| RegistryReplica.ReplicasConverge | qcom/qrtr/src/ns.c:155-244 | in every run of two name servers on a FIFO link whose tables stay maps, what the second finds for the first, with the messages in flight applied, is part of the first's local services, and all of them once a hello was answered |
| RegistryDiverges.ReplicaKeeps | qcom/qrtr/src/ns.c:155-244 | a run of the pair with the sender's tables maps throughout, the hello answered and nothing in flight, after which the second finds a server that the first does not |
| NameServer.NameServer.ServerAdd | qcom/qrtr/src/ns.c:246-287 | refused without service or port; otherwise a search finds the record at its address, whatever the tables held, and in every run the tables of other nodes are as before |
| NameServer.NameServer.DelServerAt | qcom/qrtr/src/ns.c:289-321 | the entry that the search finds becomes a tombstone; it is broadcast if local, and its observers are notified |
| NameServer.NameServer.HandleHello | qcom/qrtr/src/ns.c:323-333 | tables and packets are those of the registry's hello: a hello back and the local services in slot order |
| NameServer.NameServer.HandleBye | qcom/qrtr/src/ns.c:335-378 | tables and packets are those of the registry's bye |
| NameServer.NameServer.HandleDelClient | qcom/qrtr/src/ns.c:380-442 | tables, observers and packets are those of the registry's client removal, refusals included |
| NameServer.NameServer.HandleNewServer | qcom/qrtr/src/ns.c:444-481 | tables and packets are those of the registry's registration, refusals and puts behind a tombstone included |
| NameServer.NameServer.HandleDelServer | qcom/qrtr/src/ns.c:483-509 | tables and packets are those of the registry's removal |
| NameServer.NameServer.HandleNewLookup | qcom/qrtr/src/ns.c:511-547 | the observer joins the list; the answer is the matching servers in table order, then the end mark |
| NameServer.NameServer.HandleDelLookup | qcom/qrtr/src/ns.c:549-572 | drops the matching observers from the linked list and keeps the order of the others |
| NameServer.NameServer.Receive | qcom/qrtr/src/ns.c:574-655 | every packet, in every state, does to tables, observers and log what the registry's handler does |
| Json.Parse | qcom/pd-mapper/json.c:295-315 | on every text that does not end in an opening bracket the mutually recursive parser stops, with the cursor within the text; it leaves the text in front exactly for the empty one |
| Json.ParseValue | qcom/pd-mapper/json.c:150-182 | cursor bounds, progress, and that only a digit can be a value at the last character |
| JsonRoundTrip.RoundTrip | qcom/pd-mapper/json.c:63-315 | every document of non-empty arrays and objects, strings, numbers and keywords, with any white space between tokens, parses to its tree: shape, order, keys and values |
| JsonRoundTrip.ValueRT | qcom/pd-mapper/json.c:150-182 | a printed value in front of a delimiter anywhere in a text is read completely and exactly |
| JsonRoundTrip.ElementsRT | qcom/pd-mapper/json.c:184-225 | the elements of an array are read in order up to the closing bracket |
| JsonRoundTrip.PropertyRT | qcom/pd-mapper/json.c:268-293 | a member gives its key and its value |
| JsonRoundTrip.QuotedRT | qcom/pd-mapper/json.c:72-95 | a quoted string of at most 127 characters is read to its closing quote |
| JsonLenient.KeywordAccepts | qcom/pd-mapper/json.c:117-148 | a keyword is accepted if and only if all its letters but the last are there |
| JsonLenient.UnclosedArray | qcom/pd-mapper/json.c:50-61 | for every document, an opening bracket before it is accepted without a closing one if and only if the document is an array that ends the text |
| JsonLenient.BracketRereads | qcom/pd-mapper/json.c:184-207 | at the end of a text that ends in an opening bracket the search for a value comes back to that bracket, without end |
| JsonLenient.OpenBracketLoops | qcom/pd-mapper/json.c:184-293 | inside any nesting of open arrays and objects, with any complete values before, a bracket that ends the text makes the parser loop |
| JsonLenient.UnreachedBracket | qcom/pd-mapper/json.c:97-115 | a text that begins with a digit is accepted whatever follows, a last bracket included |
| JsonLoops.LoopsExactly | qcom/pd-mapper/json.c:150-315 | the parser loops on a text if and only if it ends in an opening bracket and a scanner with a stack, which goes over the other characters once, comes to it where a value is due |
| JsonParser.Parser.Input | qcom/pd-mapper/json.c:50-56 | reads and advances, except at the end |
| JsonParser.Parser.SkipWhitespace | qcom/pd-mapper/json.c:63-70 | the cursor moves as the function says |
| JsonParser.Parser.ParseString | qcom/pd-mapper/json.c:72-95 | the loop gives the function's result, return code and cursor |
| JsonParser.Parser.ParseNumber | qcom/pd-mapper/json.c:97-115 | likewise for numbers |
| JsonParser.Parser.ParseKeyword | qcom/pd-mapper/json.c:117-148 | likewise for keywords |
| JsonParser.Parser.ParseValue | qcom/pd-mapper/json.c:150-182 | likewise for values |
| JsonParser.Parser.ParseArray | qcom/pd-mapper/json.c:184-225 | likewise for arrays |
| JsonParser.Parser.ParseObject | qcom/pd-mapper/json.c:227-266 | likewise for objects |
| JsonParser.Parser.ParseProperty | qcom/pd-mapper/json.c:268-293 | likewise for members |
| JsonParser.ParseText | qcom/pd-mapper/json.c:295-315 | the whole run over a text gives the function's tree or none |
| Fir.StreamingIsConvolution | audio/fir_filter.c:101-154 | from a reset filter, any split of a stream into blocks of whole frames gives the filtered stream |
| Fir.BlockExtends | audio/fir_filter.c:101-154 | one block continues the output of the stream so far |
| FirBounds.ChannelConvolution | audio/fir_filter.c:104-150 | each output is the shifted, saturated convolution of its own channel with that channel's taps, silence before the stream |
| FirBounds.ExactConvolution | audio/fir_filter.c:104-150 | with tap magnitudes adding up to at most 65535 the convolution is exact: rounded down and saturated |
| FirBounds.AccumulatorExact | audio/fir_filter.c:115-139 | no partial sum leaves 32 bits for any 16-bit stream if and only if the two extreme sums of the taps fit |
| FirBounds.WrapExample | audio/fir_filter.c:128-139 | three full-scale taps give an output of the wrong sign |
| FirBounds.SecondLane | audio/fir_filter.c:107-109 | the second lane's taps are inside the tap buffer if and only if there is one filter, one channel or an even number of channels |
| FirBounds.BlockInside | audio/fir_filter.c:101-154 | a block is copied and read inside the state buffer if and only if it has at most as many frames as the filter was made for, or one more with an even number of channels |
| FirFilter.Init | audio/fir_filter.c:34-83 | a filter with silence before it, or none for no channels or no taps |
| FirFilter.FirState.Reset | audio/fir_filter.c:94-99 | the kept samples are silence |
| FirFilter.FirState.Accumulate | audio/fir_filter.c:112-137 | both accumulators of a frame are the sums over the taps, wrapping at each step; every index into the state is inside it, the spare lane's too |
| FirFilter.FirState.ProcessPair | audio/fir_filter.c:111-147 | writes the outputs of a channel pair and no other sample |
| FirFilter.FirState.Process | audio/fir_filter.c:101-154 | any block that stays inside the state, also in place, gives the block output and keeps the samples for the next |
| Aec.RunInv | audio/audio_aec.c:297-363 | in every orderly run the counter is the bytes read minus the bytes of the timestamps taken, at most 0 and at least minus the last packet's size |
| Aec.TimestampAttribution | audio/audio_aec.c:319-363 | after every orderly run a read of at least one byte gets the timestamp of the packet that holds its first byte, with that byte's offset in it |
| Aec.ReadAttributed | audio/audio_aec.c:319-363 | the packet chosen holds the first byte read if and only if it has bytes; there is no timestamp only for an empty read with nothing queued |
| Aec.ReadKeeps | audio/audio_aec.c:297-363 | a read keeps FIFOs and counter in step if and only if it takes no byte whose timestamp is still to be queued |
| Aec.FlushKeeps | audio/audio_aec.c:130-144 | a flush keeps them in step if and only if it does not come between the halves of a write that has bytes |
| Aec.LostStampKeeps | audio/audio_aec.c:297-317 | losing the timestamp of a write keeps them in step if and only if the write has no bytes |
| Aec.LostStampMisleads | audio/audio_aec.c:297-363 | if the first write loses its timestamp, the read of its first byte gets the timestamp of the next write |
| Aec.EarlyRead | audio/audio_aec.c:331-337 | a read between the halves of the first write has no timestamp, and the late one stays ahead of the samples |
| AecReference.Reference.WriteToReferenceFifo | audio/audio_aec.c:297-317 | the bytes taken are queued, and one timestamp for them if its FIFO takes it; an error if not all bytes were taken |
| AecReference.Reference.GetSpkTimestamp | audio/audio_aec.c:319-363 | the loop takes timestamps as the function does and returns the same time |
| AecReference.Reference.GetReferenceSamples | audio/audio_aec.c:377-401 | samples come out in order with their time, or the call times out and changes nothing |
| AecReference.Reference.FlushFifos | audio/audio_aec.c:130-144 | empties both FIFOs and clears the counter |
| Assoc.SixCells | qcom/pd-mapper/assoc.c:81-120 | a free cell is left after every number of keys if and only if the table starts with at least six cells |
| Assoc.ProbeFinds | qcom/pd-mapper/assoc.c:66-79 | where a probe ends tells whether the key is there, and where |
| Assoc.PutGood | qcom/pd-mapper/assoc.c:106-119 | storing at the end of the probe updates the map and keeps every key reachable, for any hash |
| Assoc.Table.Search | qcom/pd-mapper/assoc.c:66-79 | the probe ends at the key's cell, or at a free one if the key is absent; there always is a free one |
| Assoc.Table.Get | qcom/pd-mapper/assoc.c:66-79 | the value last set for the key, if any |
| Assoc.Table.Set | qcom/pd-mapper/assoc.c:81-125 | the map is updated, the fill is the number of keys, growth happens exactly above 80 percent |
| Assoc.Table.Fill | qcom/pd-mapper/assoc.c:93-96 | refilling the larger table never makes it grow |
| Assoc.Table.Grow | qcom/pd-mapper/assoc.c:89-104 | the map is kept in a table a quarter larger |
| Assoc.Table.Next | qcom/pd-mapper/assoc.c:127-146 | the next used cell, or none |
| Assoc.Table.ForEach | qcom/pd-mapper/assoc.h:49-52 | every key comes up exactly once, with its value |
| Rmtfs.RequestIsRanges | qcom/rmtfs/rmtfs.c:190-218 | a request is done if and only if every entry can be copied in its turn, and then it is the fold of whole-range copies; otherwise exactly the sectors before the first that cannot be copied are, and the outcome says whether that one was refused or began past the end |
| Rmtfs.WritesNotPastEnd | qcom/rmtfs/storage.c:217-245 | no write is stopped by the end of the buffer, wherever it begins |
| Rmtfs.EntryIsRange | qcom/rmtfs/rmtfs.c:191-217 | the sectors of an entry add up to one range copy, up to the first that cannot be copied |
| Rmtfs.OneSide | qcom/rmtfs/rmtfs.c:190-218 | a write leaves the memory as it is, a read leaves the storage as it is, whether the request is done or not |
| Rmtfs.FirstWrite | qcom/rmtfs/storage.c:217-245 | a write leaves bytes in an empty buffer if and only if its first sector can be written |
| Rmtfs.WriteReadBack | qcom/rmtfs/storage.c:197-245 | sectors written and read back, to anywhere in the region, are the same |
| Rmtfs.SectorBaseExact | qcom/rmtfs/rmtfs.c:192 | the sector position is exact if and only if the address is below 2^23 |
| RmtfsDaemon.Daemon.MemPtr | qcom/rmtfs/sharedmem.c:337-352 | a pointer if and only if the range is inside the region |
| RmtfsDaemon.Daemon.MemWrite | qcom/rmtfs/sharedmem.c:373-390 | overwrites the range and nothing else, or refuses |
| RmtfsDaemon.Daemon.StorageRead | qcom/rmtfs/storage.c:197-215 | the bytes at the position, zeros behind the end |
| RmtfsDaemon.Daemon.StorageWrite | qcom/rmtfs/storage.c:217-245 | overwrites and extends the buffer below the size limit, also from behind its end, with any bytes between |
| RmtfsDaemon.Daemon.MoveSector | qcom/rmtfs/rmtfs.c:196-207 | one sector in either direction |
| RmtfsDaemon.Daemon.Iovec | qcom/rmtfs/rmtfs.c:190-218 | the nested loops give the outcome and the bytes of the request function |
| RmtfsHandles.RunInside | qcom/rmtfs/storage.c:163-175 | a run of requests stays inside the table if and only if every handle it closes or transfers through has an id below 2^31 |
| RmtfsHandles.RunInv | qcom/rmtfs/storage.c:75-161 | in every run of open, close and transfer requests that stays inside the table no node has a partition open twice, and only known partitions are open |
| RmtfsHandles.OthersKept | qcom/rmtfs/storage.c:75-245 | requests of other nodes, transfers included, leave an open handle and its buffer as they are, in every run |
| RmtfsHandles.HoldsWritten | qcom/rmtfs/rmtfs.c:128-218 | until its node closes it an open handle keeps its partition, and its buffer is what the node's own transfers through it made of it, whatever else happens |
| RmtfsHandles.OpenWorks | qcom/rmtfs/storage.c:75-149 | opening works if and only if the partition is known and open already, or has a file and a free handle; open handles stay |
| RmtfsHandles.OpenAgain | qcom/rmtfs/storage.c:96-102 | opening again gives the same handle and changes nothing |
| RmtfsHandles.Answers | qcom/rmtfs/storage.c:75-175 | after every run a slot answers a node if and only if the node was given it last, open or closed, or it was given to none and answered the node before |
| RmtfsHandles.StrayExactly | qcom/rmtfs/storage.c:217-245 | a transfer makes a slot neither open nor free if and only if it writes through a closed handle and its first sector can be written |
| RmtfsHandles.StrayExactlyUntil | qcom/rmtfs/storage.c:104-109 | such a slot stays lost throughout a run if and only if its node does not close it again |
| RmtfsHandles.HandlesRunOut | qcom/rmtfs/storage.c:104-113 | a run after which nothing is open and no node can open any partition |
| RmtfsHandles.Table.StorageOpen | qcom/rmtfs/storage.c:75-149 | the two searches give the handle and the table of the function |
| RmtfsHandles.Table.CloseRequest | qcom/rmtfs/rmtfs.c:119-126 | closes the handle if it answers the node |
| RmtfsHandles.Table.MoveRequest | qcom/rmtfs/rmtfs.c:175-218 | a transfer through the handle that answers the node: buffer, memory and outcome are those of the request function |
| Tftp.Receives | qcom/tqftpserv/tqftpserv.c:372-426 | in every run with loss, repetition and reordering, the server hung or not, an in-order receiver holds the blocks that its count names in 16 bits, and every packet carries the block that its number stands for |
| Tftp.LoopIsWindow | qcom/tqftpserv/tqftpserv.c:410-423 | a loop that returns sends the blocks of the window in order up to the end of the file |
| Tftp.LoopForever | qcom/tqftpserv/tqftpserv.c:410-423 | otherwise every round sends one more packet, for the counter's next value in 16 bits |
| Tftp.LoopSendsAll | qcom/tqftpserv/tqftpserv.c:410-423 | the first 65536 rounds of such a loop send all that it ever sends |
| Tftp.WindowGenuine | qcom/tqftpserv/tqftpserv.c:410-423 | every packet of a reply carries the block its number says, and no number is 0 |
| Tftp.StreamIsPrefix | qcom/tqftpserv/tqftpserv.c:75-107 | up to 65536 blocks, the blocks a receiver takes are a prefix of the file |
| TftpRuns.NextBlockSent | qcom/tqftpserv/tqftpserv.c:410-425 | an acknowledgement that is answered brings the next block if and only if there is one and the window size is not 0 |
| TftpRuns.Completes | qcom/tqftpserv/tqftpserv.c:372-426 | from every reachable state a receiver on the way to the file can be brought all of it |
| TftpRuns.CompletesWhen | qcom/tqftpserv/tqftpserv.c:372-426 | with a window, a transfer can complete if and only if the file has at most 65536 blocks, or is longer and repeats itself every 65536 blocks |
| TftpRuns.NoWindowCompletes | qcom/tqftpserv/tqftpserv.c:301-309 | without a window it can if and only if the file is empty, or has one block and no options were sent |
| TftpRuns.PrefixExactly | qcom/tqftpserv/tqftpserv.c:372-426 | every run keeps the receiver at a prefix of the file if and only if there is no window, no block size, or less than 65536 full blocks |
| TftpRuns.WrongBlock | qcom/tqftpserv/tqftpserv.c:410-423 | for every file of 65536 full blocks or more there is a run in which the receiver takes block 0 behind them |
| TftpRuns.ShortBlock | qcom/tqftpserv/tqftpserv.c:90-96 | a packet is short exactly when the file ends inside its block |
| TftpServer.Reader.SendData | qcom/tqftpserv/tqftpserv.c:75-107 | sends what is left at the offset, at most a block; nothing at the end |
| TftpServer.Reader.HandleRequest | qcom/tqftpserv/tqftpserv.c:301-309 | the first block without options, no data with options |
| TftpServer.Reader.HandleAck | qcom/tqftpserv/tqftpserv.c:410-425 | the loop over the 16-bit counter sends, in any number of rounds, the packets of the loop function; all of the reply where it returns |

## Left out

- QMI structs of `size_t` counts: a count field is four bytes wide in the model, which is what the codec reads and writes.
- QMI minimum length: only whether it is 0, which is all that the encoder looks at.
- Json numbers of more than 15 digits: the value is the exact decimal number, not the nearest double; JSON accessors, file reading and freeing are left out.
- JSON characters above 127, which `isspace` and `isdigit` may not be given.
- The name service: sockets, the waiter, dormancy, and the ticket loop; sends succeed and allocation does not fail.
- NameServer.NameServer.ServerAdd: the probe tables inside the name server are values that the table functions update; that the table in place does what these functions do is proved in `ProbeTable.Table`.
- Replica convergence covers one direction of one link; the other direction is the same statement with the nodes exchanged.
- `list_prepend`, `list_insert` and `list_pop`: not used by the observer list.
- FIR: the NEON branch, and 32-bit overflow of buffer sizes.
- FirFilter.FirState.Process: blocks that leave the state buffer, exactly those that `BlockInside` excludes, since what they overwrite is unspecified.
- AEC: which bytes a FIFO takes is a parameter; times are a timestamp and a byte offset without the conversion to microseconds, and waiting for samples is not modelled; resampling, downmixing and the canceller itself are foreign code.
- Assoc.Table.Search: the hash is any function of the key; the particular string hash is not modelled.
- Assoc.Table.constructor: starts from six cells, the least size for which the table works (`SixCells`).
- Rmtfs.RequestIsRanges: a read that begins past the end of the shadow buffer ends the model of the request (`PastEnd`), since the unsigned length that is left wraps around there and the bytes read are unspecified; allocation failure and storage on a device file are left out.
- RmtfsHandles.RunInside: a caller id of 2^31 or above ends the run, since what lies before the table is unspecified; a read past the end of a buffer leaves the table of the run as it is, and the memory is not part of the run.
- Rmtfs answers: error codes and the encoding of the responses.
- TFTP: option parsing, path translation, the write side, timeouts, and messages that are not acknowledgements from the client.
- TftpServer.Reader.HandleAck: the loop takes a number of rounds, so that one without end can be followed as far as one likes.
- `audio_hw.c`, `gralloc`, lights and memory tracking: thin wrappers over foreign libraries, with only easy properties.
