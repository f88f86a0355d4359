# nfsan: a verified model

nfsan listens on a network, finds the NFS calls and replies in what it captures, pairs them, decodes them, and reports
what each client did to each file. This project models its core in Dafny and proves what the program relies on.

| file | what it models |
|---|---|
| `Ints.dfy` | fixed-width integers, words and bytes in network order, padding |
| `XidSpec.dfy`, `XidRuns.dfy`, `XidTable.dfy` | the table of outstanding calls: as a value, over runs, and as chains of heap nodes in an array of buckets |
| `Rpc.dfy`, `Frames.dfy` | the packet headers and the RPC message header, and their encodings |
| `Denials.dfy`, `Wire.dfy` | replies that were not accepted; packets put together from encoded parts, and what the capture makes of them |
| `Capture.dfy`, `CaptureRuns.dfy` | the walk over the RPC records of a packet, and what holds over runs of packets |
| `Codec.dfy`, `Nfs3.dfy`, `Exactness.dfy` | XDR filters as values: the laws, the combinators, the NFSv3 and MOUNT types, and exactly which values survive |
| `XdrStream.dfy`, `XdrRecords.dfy` | the same filters as methods that move a cursor over a buffer in either direction |
| `Skips.dfy`, `Inline.dfy` | hand-written skips and inline paths, against the filters |
| `Keys.dfy` | hex keys of handles, dotted quads, client keys |
| `PathMaps.dfy`, `Storage.dfy` | the two maps between handles and paths, under interleaved threads, and the class that holds them |
| `Layout.dfy` | where the bytes of each type lie |
| `Procs.dfy`, `Calls.dfy`, `Filing.dfy`, `Learning.dfy` | the procedures and the classes of their requests; what the server thread reads out of calls and replies, what each call files and each reply teaches |
| `Requests.dfy` | the flat log of requests: slots, answers, conservation across reports |
| `Clients.dfy`, `Server.dfy` | the nested index of clients, files and queues, and the server thread, against that log |
| `EndToEnd.dfy` | from captured packets through the queue to the log: which request a reply is credited to |
| `Crawl.dfy`, `CrawlRoutes.dfy`, `CrawlPaths.dfy` | the directory crawl: paging, stitching, recursion; which routes it reports; what it leaves in the path maps |

Each part has a specification as plain functions on values. The program's methods are proved to compute it, on classes
with the program's own fields where the program changes state in place. What the program is for is proved about the
specification, for all inputs and all runs.

Memory outside a capture holds arbitrary values, and reads of it are modelled. 32-bit arithmetic wraps where the program's
does. The clock, the network, whether a report file can be opened, the interleaving of threads, and the NFS server that
the crawl talks to are parameters.

Where the code and what one would expect of it differ, the model follows the code:

- With two outstanding calls of one key, the cull frees newer calls instead of stale ones. `XidSpec.CullExact` says when
  a cull is exact.
- The status of a reply is read relative to the first record of its packet. `CaptureRuns.StatusOffset` says when that is
  the right place, and `Wire.WrongStatus` gives a packet in which it is not.
- A reply that was not accepted is meant to be dumped, but its reply status and accept status decide nothing. A denied
  reply with nothing behind it is passed over, its call staying in the table, because its own words are taken for a
  longer header; with enough behind it, it takes its call off the table and is queued. `Denials.DeniedFate` and
  `Denials.DeniedLast` say exactly when, `Denials.AcceptedFate` the same of error replies, and `Wire.DeniedQueued` gives
  a run in which a denied reply is queued.
- Replies key handles by their zero-padded form, calls by the handle itself. `Keys.KeysAgree` says when the two agree.
- A reply is taken to answer the latest call of the same hosts and procedure, not the call with its transaction id.
  `EndToEnd.CapturedReplies` says exactly when the two are the same, for all captured packets, and
  `Requests.OverlappingCalls` shows a case in which they are not.
- A WRITE call whose handle does not decode may still add its count to the previous WRITE, and takes it off its slot.
  `Calls.OverlongHandleStrays` gives such calls; `Requests.ConservedFromStart` says exactly what they add to the reports.
- MKDIR and READDIRPLUS replies use the request in their slot without checking that there is one, and the skip over a
  truncated WRITE reply reads through a null pointer. Both are modelled as a crash. `Skips.SkipCrashes`,
  `Calls.CrashesExactly` and `Calls.WriteCrashesExactly` say exactly when it comes, `Server.KillsOnly` that nothing else
  does it, and `Server.ServerThread.Run` what of a run it leaves. `Server.TruncatedWriteKills`, `Server.LoneMkdirKills` and
  `Server.LoneListingKills` give such replies.
- The crawl dies over a directory whose first page is empty. `Crawl.CrawlExact` says exactly when, and what has been
  reported by then.
- Deleting a handle erases its path even if another handle has that path. `PathMaps.StepInverse` says exactly when the
  maps stop being inverses.
- A rename is several locked steps. `PathMaps.InterruptedRename` says exactly when it survives other threads.
- PATHCONF booleans other than 0 and 1 decode and encode differently on the inline path.
- Strings that hold a zero byte decode but encode shorter. `Exactness` says of arguments, listings and export lists exactly
  which survive.
- An RFC 894 frame can be taken for an RFC 1042 one. `Frames.LinkFields` says exactly which.

## Model

| member | source | states |
|---|---|---|
| `XidSpec.CullWalkIsDropNewest` | src/net_parser.cc:143-152 | The cull, which unlinks nodes from the very chain it walks, equals a single pass that lets each key lose as many entries as it had stale ones, newest first |
| `XidSpec.HashIsSum` | include/nfs.h:62-64 | A key's bucket is the sum of its transaction, host and port, modulo 3301 |
| `XidSpec.CullWalkOfKey` | src/net_parser.cc:143-152 | Seen from one key: its stack loses a prefix as long as its number of stale entries |
| `XidSpec.CullExact` | src/net_parser.cc:143-152 | A cull removes exactly the stale entries if and only if no key has a fresh entry in front of a stale one |
| `XidSpec.CullSingle` | src/net_parser.cc:143-152 | A call alone in its bucket is freed exactly if it is older than the limit |
| `XidSpec.CullRemovesNewerTwin` | src/net_parser.cc:89-99 | Two calls with one key, the older one stale: the cull frees the newer call and keeps the stale one |
| `XidSpec.LimitWraps` | src/net_parser.cc:142 | The threshold is now - 30 from 30 seconds on; before that it wraps above the clock |
| `XidSpec.LookupPops` | src/net_parser.cc:64-103 | A lookup pops the newest call of its key, if any, and leaves every other key's stack as it was |
| `XidSpec.InsertPushesThenCulls` | src/net_parser.cc:109-156 | An insert pushes onto its key's stack; then each key of the culled bucket loses its newest entries, one for each stale one |
| `XidRuns.VisitOf` | src/net_parser.cc:153 | In any 3301 consecutive inserts the cull index names every bucket exactly once |
| `XidRuns.BoundedGarbage` | src/net_parser.cc:142-153 | After 3301 inserts with clock at least t0 and no key outstanding twice, no entry of the table is older than t0 - MAX_AGE, whatever lookups lie between |
| `XidRuns.BoundedStacks` | src/net_parser.cc:142-153 | For any keys: after 3301 inserts with clock at least t0, each key has at most as many outstanding entries as it had at the start that were not older than t0 - MAX_AGE, plus its inserts |
| `XidTable.MatchNotAhead` | src/net_parser.cc:144-150 | The nested lookup of a stale node finds a match no further on than that node, so the saved next pointer is never freed and the assertion old != NULL never fails |
| `XidTable.HashTable.constructor` | include/nfs.h:66-67 | A new table has empty chains and a count of zero |
| `XidTable.HashTable.Unlink` | src/net_parser.cc:93-95 | Unlinking a node through the pointer before it, be that the bucket head or a next field, removes that entry from the abstract table and lowers the count by one |
| `XidTable.HashTable.Find` | src/net_parser.cc:90-98 | The chain walk stops at the first node with the key, with its predecessor, or at the end when there is none |
| `XidTable.HashTable.Take` | src/net_parser.cc:89-101 | The first match for the key is unlinked and returned |
| `XidTable.HashTable.Lookup` | src/net_parser.cc:64-103 | On heap chains: the node returned and the new table are those of the abstract lookup; the count stays the sum of the chain lengths |
| `XidTable.HashTable.Link` | src/net_parser.cc:126-129 | Head insertion on heap chains is the abstract push |
| `XidTable.HashTable.Push` | src/net_parser.cc:115-129 | A new node carries the call's fields and is pushed |
| `XidTable.HashTable.CullNode` | src/net_parser.cc:144-151 | One step of the cull on the heap: the survivors so far and the node saved as next stay linked |
| `XidTable.HashTable.CullChain` | src/net_parser.cc:143-152 | The culling loop on the heap leaves the chain that the abstract cull leaves |
| `XidTable.HashTable.Cull` | src/net_parser.cc:142-153 | Cull one bucket and move the index on, modulo the table size |
| `XidTable.HashTable.Insert` | src/net_parser.cc:109-156 | The heap table after an insert is the abstract table after an insert |
| `Frames.LinkFields` | src/net_parser.cc:157-188 | The link header's length and the packet type are found in both encapsulations, RFC 894 and RFC 1042, except in exactly the RFC 894 frames whose type equals the captured length less 22 and whose payload starts AA AA 03 |
| `Frames.IpFields` | src/net_parser.cc:195-227 | Of every encoded IPv4 header (RFC 791) the length, protocol and addresses are found; a later fragment gets length 0 |
| `Frames.TransportFields` | src/net_parser.cc:233-243 | Of every encoded TCP or UDP header the ports are found, and the TCP header's length from its data offset |
| `Frames.ParseFindsRecords` | src/main.cc:45-156 | Of every TCP or UDP frame over IPv4 with at least one byte behind its headers, the program finds the hosts, the ports and the place where the RPC records start |
| `Frames.ParseIgnores` | src/main.cc:66-140 | Later fragments and other protocols are left alone |
| `Frames.ParseBare` | src/main.cc:66-156 | So are frames with nothing behind their headers |
| `Frames.ParseOtherType` | src/main.cc:60-80 | So are frames whose type is not 0x0800, and IP packets of another version than 4 |
| `Frames.ParseTiny` | src/main.cc:44-46 | So are packets of at most 42 captured bytes |
| `Rpc.CallHeaderLength` | src/net_parser.cc:260-319 | On every encoded call captured whole (RFC 5531, section 9), of whatever program, getRpcHeader returns exactly the length of the header if the RPC version is 2, the program 100003 and the credentials AUTH_UNIX, and an error otherwise |
| `Rpc.ReplyHeaderLength` | src/net_parser.cc:321-342 | The same for every accepted reply |
| `Denials.ReplyDelivered` | src/net_parser.cc:321-342 | A reply is delivered if and only if the header length that its verifier length word stands for, for any word and through all 32-bit wraps, is positive and ends inside the capture |
| `Denials.ReplyQueued` | src/main.cc:229-307 | A delivered reply takes its call off the table and is queued if and only if that call is known and something lies behind the two words that follow the header, whatever its reply status and accept status are |
| `Denials.DeniedFate` | src/main.cc:237-248 | Of every denied reply (RFC 5531, section 9), captured whole: delivered if and only if the length its third or second word behind the status stands for ends inside the capture, and then queued under the same condition as an accepted one |
| `Denials.DeniedLast` | src/main.cc:208-213 | With nothing behind it a denied reply changes neither table nor queue, except exactly if its lowest version is between -19 and 0, or its auth_stat between -19 and -4, as signed words; so never for the values of the protocol |
| `Denials.AcceptedFate` | src/main.cc:229-307 | An accepted reply is delivered and queued under the same conditions whatever its accept status, success or error |
| `Capture.LengthCancels` | src/main.cc:292-356 | Whatever the payload length wraps to, adding it to the offset behind the header gives what unwrapped arithmetic would |
| `Capture.MessageAdvances` | src/main.cc:173-206 | An iteration that reaches the end of the loop moves by exactly 4 plus the record length (TCP) or to the end of the packet (UDP), for calls and replies, even when the payload length wraps; so the loop terminates |
| `Capture.Sniffer.Header` | src/main.cc:173-186 | The record marker without its top bit, and the header behind it |
| `Capture.Sniffer.Accept` | src/main.cc:187-214 | Which headers end the walk, which NULL call is skipped, and where an accepted message's body starts |
| `Capture.Sniffer.Scan` | src/main.cc:173-214 | The two together are the iteration of the specification |
| `Capture.Sniffer.Consult` | src/main.cc:219-286 | A call is inserted with the sender's host and port, a reply looked up with the receiver's; version and procedure come from the matched call, or are 3 and -1 |
| `Capture.Sniffer.Post` | src/main.cc:304-307 | A record is queued with the rest of the capture if there is any and its procedure is known |
| `Capture.Sniffer.Finish` | src/main.cc:292-356 | The record queued and the next loop head, in 32-bit arithmetic |
| `Capture.Sniffer.Message` | src/main.cc:219-356 | A message takes the heap table and the queue to what the specification says |
| `Capture.Sniffer.Records` | src/main.cc:157-357 | The loop, over the heap table and the queue, takes them to what the recursive walk of the specification gives |
| `Capture.Sniffer.GotPacket` | src/main.cc:22-361 | The same for a whole packet, with the header checks before the loop |
| `Capture.SynchronizedDequeue.Add` | src/nfs.cc:133-139 | A packet is appended to the queue |
| `Capture.SynchronizedDequeue.Get` | src/nfs.cc:141-151 | The oldest packet is taken off the queue, or none if it is empty |
| `CaptureRuns.MessagesAreRecords` | src/main.cc:157-206 | The i-th message of a packet lies at the i-th record boundary of section 11 of RFC 5531, inside the capture |
| `CaptureRuns.QueuedDataIsTail` | src/main.cc:300-307 | Every queued packet holds a non-empty tail of the capture, and its actual length is the length of that tail |
| `CaptureRuns.UdpOnce` | src/main.cc:131 | A UDP packet yields at most one message |
| `CaptureRuns.TrailingFragment` | src/main.cc:177-214 | With less than a record marker (over TCP) and five words left at a loop head, neither table nor queue changes, whatever lies behind the capture |
| `CaptureRuns.StatusOffset` | src/main.cc:275-284 | A reply's status is read right behind its own accept status if and only if it is in the first record of the packet |
| `Wire.CapturedReplies` | src/main.cc:275-284 | Of two replies in one TCP packet with verifiers of the same length, both delivered, the second is queued with the status of the first |
| `Wire.WrongStatus` | src/main.cc:275-284 | A packet whose second reply is queued with a status it does not have |
| `CaptureRuns.RunTrace` | src/main.cc:22-361 | Over any run of packets, every event is what the table answered when its turn came |
| `CaptureRuns.ReplyKeepsLedger` | src/main.cc:270-288 | Taking a call for a reply keeps the ledger: the table holds each inserted call at most once, none that a reply took, and no call is taken twice |
| `CaptureRuns.CallKeepsLedger` | src/main.cc:219-227 | So does inserting a call, cull included |
| `CaptureRuns.MatchedToEarlierCall` | src/main.cc:219-307 | Over every run of packets: a queued reply was matched to a call inserted earlier with the same transaction, host and port, that no other reply was matched to, and carries its version and procedure; an unmatched reply is never queued |
| `CaptureRuns.CapturedGarbage` | src/main.cc:219-227 | Over captured packets of at least time t0 that insert 3301 calls, none with a key outstanding, no call older than t0 - MAX_AGE stays in the table, whatever replies lie between |
| `CaptureRuns.CapturedStacks` | src/main.cc:219-227 | The bound for any keys, over captured packets of at least time t0 that insert 3301 calls |
| `Wire.CapturedCall` | src/main.cc:157-227 | A frame around a record around an encoded NFS call with arguments, over TCP or UDP: it is inserted, and queued with exactly this record and its arguments, and nothing else happens |
| `Wire.EventIffNfs` | src/net_parser.cc:260-312 | A call whose header is captured whole, wherever in a packet, gives an event if and only if its RPC version is 2, its program 100003, its credentials AUTH_UNIX, and anything lies behind the header; otherwise neither table nor queue changes |
| `Wire.CapturedIffNfs` | src/main.cc:182-214 | The same of a packet that starts with a call, over TCP or UDP, whatever is behind it |
| `Wire.CapturedReply` | src/main.cc:229-307 | A packet with one accepted reply: its call is taken off the table, and if that is known the reply is queued with exactly this record: its own addresses, transaction, status and results, and the call's version and procedure |
| `Wire.DeniedAnswer` | src/main.cc:219-307 | A call and then a denied reply to it with anything behind: the reply is matched to the call if and only if it is delivered, and queued if and only if enough lies behind it |
| `Wire.DeniedQueued` | src/main.cc:237-248 | A run in which a reply that the credentials are bad takes its call off the table if more than four bytes lie behind it, and is queued if more than twelve do, otherwise not |
| `PathMaps.RunConsistent` | src/server.cc:276-332 | Under every interleaving of the locked methods, a path that leads to an id leads back, so no two paths share an id |
| `PathMaps.BoundUntilDeleted` | src/server.cc:320-332 | A bound id keeps its path until it is deleted, whatever other threads do |
| `PathMaps.StepInverse` | src/server.cc:303-332 | One step keeps the two maps exact inverses if and only if it binds no path that another live id has |
| `PathMaps.RunInverse` | src/server.cc:303-332 | If no step of a run does, the maps are exact inverses at its end |
| `PathMaps.DeleteHitsTheOther` | src/server.cc:311-316 | Deleting one of two ids with the same path makes that path unknown although the other id is still bound to it |
| `PathMaps.LearnOnce` | src/server.cc:1176-1185 | A path learned from a reply stays: a second reply for the same handle changes nothing |
| `PathMaps.RenameMoves` | src/server.cc:886-908 | An uninterrupted rename of a file that is known by its directory's path and its name, or else by its directory's handle and its name, moves its binding: the new path leads to it, the old one nowhere, nothing else changes |
| `PathMaps.RenameNothing` | src/server.cc:886-908 | A rename does nothing if one of the directories has no path, or the file is known by neither |
| `PathMaps.RunBinding` | src/server.cc:276-332 | An id's binding depends on the steps for that id alone, not on the rest of the interleaving |
| `PathMaps.InterruptedRename` | src/server.cc:900-907 | With other threads' steps between deletion and new binding, a rename takes effect in both maps if and only if those steps leave the id unbound, or bound to its new path with that path leading to it; and when the old path is unknown afterwards |
| `PathMaps.RunOwner` | src/server.cc:276-332 | Which id a path leads to after any interleaving, told from the steps: the last id bound to it while unbound, unless an id with that path was deleted since |
| `PathMaps.RenameShadowed` | src/server.cc:900-907 | Another id given the new path in that window keeps it, although the renamed id has that path too |
| `PathMaps.RenameLost` | src/server.cc:900-907 | A crawler binding the old path again in that window undoes the rename for good |
| `Storage.HandlerStorage.GetPath` | src/server.cc:276-286 | The path bound to an id, or the empty string |
| `Storage.HandlerStorage.GetId` | src/server.cc:288-301 | The id bound to a path, or the empty string |
| `Storage.HandlerStorage.SetPath` | src/server.cc:320-332 | Binds a new id, and takes the path over; an id that is bound stays as it is |
| `Storage.HandlerStorage.DeletePath` | src/server.cc:303-318 | Forgets an id and whatever its path is bound to |
| `Storage.HandlerStorage.Rename` | src/server.cc:886-908 | The rename sequence changes the maps as the specification of RenameMoves says |
| `Storage.HandlerStorage.Learn` | src/server.cc:1176-1185 | The path of a returned handle: under its parent's path, or under its parent's handle |
| `Codecs.LawfulIsFaithful` | src/nfs_prot_xdr.c:2196-2240 | A lawful filter reads back what it writes whatever follows, rejects every strict prefix, writes no encoding that is a prefix of another, and writes what it has read in a canonical form of the same length |
| `Codecs.RoundTrip` | src/nfs_prot_xdr.c:1156-1165 | Decoding an encoding followed by anything gives the value and leaves what follows |
| `Codecs.StrictPrefixFails` | src/nfs_prot_xdr.c:2196-2240 | Decoding any strict prefix of an encoding fails |
| `Codecs.PrefixFree` | src/nfs_prot_xdr.c:2196-2240 | No encoding is a prefix of another value's encoding |
| `Codecs.Canonical` | src/nfs_prot_xdr.c:1027-1153 | What was decoded to a value that obeys the laws encodes to as many bytes, and that encoding decodes to the same |
| `Codecs.TaggedLawful` | src/nfs_prot_xdr.c:1798-1820 | A discriminated union obeys the laws if its arms do |
| `Codecs.ListLawful` | src/nfs_prot_xdr.c:2196-2226 | A linked list behind xdr_pointer, of any length, obeys the laws if its elements do |
| `Codecs.ArrayLawful` | src/mount_xdr.c:119-129 | A counted array obeys the laws if its elements do |
| `Codecs.StringLawful` | src/mount_xdr.c:28-46 | Strings without a zero byte obey the laws |
| `Codecs.DecodeListStep` | src/nfs_prot_xdr.c:2210-2212 | Decoding a list recurses on strictly fewer bytes, so it terminates |
| `Nfs3.SetattrFaithful` | src/nfs_prot_xdr.c:1225-1237 | SETATTR arguments survive encoding and decoding through every arm of their unions, void defaults included; whatever is decoded comes back when encoded again |
| `Nfs3.CreateFaithful` | src/nfs_prot_xdr.c:1583-1616 | CREATE arguments likewise |
| `Nfs3.CreateModes` | src/nfs_prot_xdr.c:1583-1604 | Exactly the modes UNCHECKED, GUARDED and EXCLUSIVE start the encoding of some createhow3 |
| `Nfs3.MknodFaithful` | src/nfs_prot_xdr.c:1798-1832 | MKNOD arguments likewise |
| `Nfs3.ListingsFaithful` | src/nfs_prot_xdr.c:2196-2240 | Directory listings of any length round-trip; their encodings are prefix-free and no strict prefix decodes |
| `Nfs3.ExportsFaithful` | src/mount_xdr.c:48-92 | The same for export lists, lists within a list |
| `Nfs3.MountFaithful` | src/mount_xdr.c:118-147 | The same for mount results |
| `Exactness.RoundTripExact` | src/nfs_prot_xdr.c:1606-1616 | Of all values that a filter made of these parts encodes, exactly the ones said to obey the laws are read back |
| `Exactness.StringTruncates` | src/mount_xdr.c:28-46 | Of any string, the part before its first zero byte is read back; so it comes back if and only if it has no zero byte |
| `Exactness.ZeroByteName` | src/nfs_prot_xdr.c:1155-1165 | A name of three bytes with a zero in the middle decodes as it is and comes back as its first byte |
| `Exactness.DecodedArguments` | src/nfs_prot_xdr.c:1606-1616 | Decoded LOOKUP, CREATE and MKNOD arguments, encoded again, decode to the same if and only if the name has no zero byte |
| `Exactness.DecodedListings` | src/nfs_prot_xdr.c:2196-2226 | A decoded listing, of any length, does if and only if no name in it has a zero byte |
| `Exactness.DecodedExports` | src/mount_xdr.c:48-92 | A decoded export list does if and only if none of its directories and groups has a zero byte |
| `Layout.HyperLayout` | src/nfs_prot_xdr.c:673-691 | A hyper integer: its upper word first |
| `Layout.VarRead` | src/nfs_prot_xdr.c:875-882 | What precedes any bytes is their length: over the maximum it is refused, and the padding behind them may hold anything |
| `Layout.BoolRead` | src/nfs_prot_xdr.c:961-978 | Any word but zero is read as true |
| `Layout.HandleLayout` | src/nfs_prot_xdr.c:875-882 | A handle of at most 64 bytes: length, bytes, zeros up to a multiple of four |
| `Layout.NameLayout` | src/nfs_prot_xdr.c:713-721 | A name likewise |
| `Layout.SattrLayout` | src/nfs_prot_xdr.c:1135-1153 | sattr3 byte by byte: mode, uid, gid, size, each behind 0 or 1, then atime and mtime, each with a time behind 2 only |
| `Layout.HowLayout` | src/nfs_prot_xdr.c:1583-1604 | createhow3 byte by byte, behind 0, 1 or 2 |
| `Layout.NodeLayout` | src/nfs_prot_xdr.c:1798-1820 | mknoddata3 byte by byte: device numbers with types 3 and 4, attributes alone with 6 and 7, nothing with others |
| `Layout.FattrLayout` | src/nfs_prot_xdr.c:897-929 | fattr3 byte by byte |
| `Layout.EntryLayout` | src/nfs_prot_xdr.c:2196-2214 | An entry byte by byte: fileid, name, cookie, attributes, handle |
| `Layout.ListingLayout` | src/nfs_prot_xdr.c:2196-2226 | A listing of any length: each entry behind a 1, then a 0 and the end-of-listing flag |
| `Layout.ExportIs` | src/mount_xdr.c:58-92 | An export byte by byte: its directory, and each group behind a 1, then a 0 |
| `Layout.ExportsLayout` | src/mount_xdr.c:70-92 | An export list of any length likewise |
| `XdrStream.StreamRoundTrip` | src/nfs_prot_xdr.c:2196-2240 | Running a filter to encode and then to decode from the same place gives the value back and leaves the cursor where encoding left it |
| `XdrStream.Xdr.Word` | src/nfs_prot_xdr.c:693-701 | One word is written or read at the cursor, or the filter fails for lack of room |
| `XdrStream.Xdr.OpaqueBytes` | src/nfs_prot_xdr.c:753-761 | Fixed-length bytes and their padding |
| `XdrStream.Xdr.CountedBytes` | src/nfs_prot_xdr.c:875-882 | A length of at most the maximum, the bytes and their padding; a string is written up to its first zero |
| `XdrStream.Xdr.Size3` | src/nfs_prot_xdr.c:803-811 | A hyper integer, most significant word first |
| `XdrStream.Xdr.NfsTime` | src/nfs_prot_xdr.c:885-895 | Two words of time |
| `XdrStream.Xdr.SetWord` | src/nfs_prot_xdr.c:1027-1079 | The unions for mode, uid and gid |
| `XdrStream.Xdr.SetSize` | src/nfs_prot_xdr.c:1081-1097 | The union for the size |
| `XdrStream.Xdr.SetTimeHow` | src/nfs_prot_xdr.c:1099-1133 | The unions for the times, a time only with SET_TO_CLIENT_TIME |
| `XdrStream.Xdr.Sattr` | src/nfs_prot_xdr.c:1135-1153 | Six unions in a row, up to the first that fails, are the codec of sattr3 |
| `XdrStream.Xdr.CreateHow` | src/nfs_prot_xdr.c:1583-1604 | The create mode and its arm, rejecting all other modes |
| `XdrStream.Xdr.GroupList` | src/mount_xdr.c:48-56 | The pointer to a group node |
| `XdrStream.Xdr.GroupNode` | src/mount_xdr.c:58-68 | A group node: name and next pointer |
| `XdrStream.Xdr.ExportList` | src/mount_xdr.c:70-78 | The pointer to an export node |
| `XdrStream.Xdr.ExportNode` | src/mount_xdr.c:80-92 | An export node: directory, group list, next pointer |
| `XdrRecords.Fattr` | src/nfs_prot_xdr.c:897-929 | The fields of fattr3 in order, up to the first that fails, are its codec |
| `XdrRecords.PostOpAttr` | src/nfs_prot_xdr.c:931-949 | The union of post_op_attr |
| `XdrRecords.WccDataOf` | src/nfs_prot_xdr.c:985-995 | wcc_data: pre_op_attr, then post_op_attr |
| `XdrRecords.EntryList` | src/nfs_prot_xdr.c:2210-2212 | The pointer to a directory entry, of any list length, in both directions |
| `XdrRecords.EntryPlus` | src/nfs_prot_xdr.c:2196-2214 | A directory entry: its fields and its next pointer |
| `XdrRecords.DirList` | src/nfs_prot_xdr.c:2216-2226 | The entries and the end-of-listing flag |
| `XdrRecords.ReaddirPlus` | src/nfs_prot_xdr.c:2228-2240 | Directory attributes, cookie verifier and listing |
| `XdrRecords.DirOp` | src/nfs_prot_xdr.c:1155-1165 | Directory handle and name |
| `XdrRecords.Mknod` | src/nfs_prot_xdr.c:1798-1820 | The node type and its arm |
| `XdrRecords.Create` | src/nfs_prot_xdr.c:1606-1616 | CREATE arguments |
| `XdrRecords.MknodOf` | src/nfs_prot_xdr.c:1822-1832 | MKNOD arguments |
| `XdrRecords.Setattr` | src/nfs_prot_xdr.c:1225-1237 | SETATTR arguments, guard included |
| `Skips.SkipIsDecode` | src/nfs.cc:16-131 | skip_wcc_data3 ends inside the payload if and only if decoding wcc_data succeeds, and then at the same place |
| `Skips.SkipCrashes` | src/nfs.cc:60-131 | skip_wcc_data3 reads through a null pointer if and only if the old attributes are announced and fewer than five of their six words are there, and leaves a null pointer moved on if and only if the new ones are announced and fewer than fourteen of their words are there |
| `Inline.GetPathsAgree` | src/nfs_prot_xdr.c:121-184 | Words decoded in one go and one by one: same fields, same rest, failure on the same buffers, for any number of words |
| `Inline.PutPathsAgree` | src/nfs_prot_xdr.c:62-120 | Words encoded in one go and one by one leave the same buffer and fail for the same room |
| `Inline.PathconfPathsAgree` | src/nfs_prot_xdr.c:2441-2467 | Decoding PATHCONF, the two paths agree if and only if each boolean in the buffer is 0 or 1 |
| `Inline.PutPathconfAgree` | src/nfs_prot_xdr.c:2422-2440 | Encoding it, they agree if and only if there is no room for the four booleans or each of them is 0 or 1 |
| `Keys.GetDirInjective` | src/server.cc:440-447 | Different handles print differently |
| `Keys.GetDirSpelled` | src/server.cc:440-447 | Byte i of a handle is spelled by digits 2i and 2i + 1, lower-case, upper half first |
| `Keys.HexOfWords` | src/server.cc:362-367 | Printing words with eight digits and bytes with two gives the same string |
| `Keys.ReadDirKey` | src/server.cc:334-373 | On an encoded handle of n words behind its length, readDir gives the hex of the zero-padded handle and lands just behind it |
| `Keys.ReadDirFinds` | src/server.cc:334-360 | A handle is found if and only if there are two words, and the bytes that its length claims, before the end |
| `Keys.KeysAgree` | src/server.cc:334-447 | Call and reply agree on a handle's key if and only if its length is a multiple of four |
| `Keys.KeysDistinct` | src/server.cc:334-447 | Calls confuse no two handles, replies exactly those that are the same once padded |
| `Keys.ConfusedHandles` | src/server.cc:345-357 | Two handles that replies confuse |
| `Keys.GetStringIpInjective` | src/nfs.cc:4-14 | Different hosts print differently as dotted quads |
| `Keys.IpSpelled` | src/nfs.cc:4-14 | A host is spelled by its four bytes in network order, in decimal, with dots between |
| `Keys.DecimalSpelled` | src/nfs.cc:4-14 | The digits stand for the number, without leading zeros |
| `Keys.PairKeyInjective` | src/server.cc:233 | A key belongs to one ordered pair of hosts |
| `Keys.ClientLookup` | src/server.cc:232-249 | Looking a client up, and making it if there is none, finds the same client in both directions, keeps the two key orders of a pair from being present together, and gives different pairs different clients |
| `Calls.LookupFiled` | src/server.cc:534-560 | A LOOKUP's handle and name, as a client encodes them, reach the log |
| `Calls.DecodeTyped` | src/server.cc:481-1082 | In every branch that keeps a call, the object made is of the class for the call's procedure, and the key it is filed under is that procedure's number |
| `Calls.ReadFiled` | src/server.cc:604-624 | A READ's handle and count, as a client encodes them, reach the log whatever follows |
| `Calls.WriteFiled` | src/server.cc:631-677 | So do a WRITE's, without decoding the data behind them |
| `Calls.OverlongHandleStrays` | src/server.cc:653-677 | A WRITE call whose handle claims more than 64 bytes leaves a stray count, if decoding has stopped behind the length |
| `Calls.RenameFiled` | src/server.cc:861-911 | A RENAME's handles and names reach the path maps |
| `Calls.CharsIs` | src/server.cc:546-548 | A name is copied up to its first zero byte |
| `Filing.HandleRead` | src/server.cc:487-507 | GETATTR, FSSTAT, FSINFO and PATHCONF, for any argument bytes: if the handle decodes, a request of the procedure's own class is filed under it, and nothing otherwise |
| `Filing.DirOpRead` | src/server.cc:534-560 | LOOKUP, REMOVE and RMDIR likewise, with the name |
| `Filing.AccessRead` | src/server.cc:564-586 | ACCESS likewise |
| `Filing.SetattrRead` | src/server.cc:509-532 | SETATTR likewise |
| `Filing.CreateRead` | src/server.cc:691-718 | CREATE likewise, with the name |
| `Filing.MkdirRead` | src/server.cc:720-745 | MKDIR likewise, with the name |
| `Filing.SymlinkRead` | src/server.cc:747-776 | SYMLINK likewise, with the name |
| `Filing.MknodRead` | src/server.cc:778-808 | MKNOD likewise, with the name |
| `Filing.ReaddirRead` | src/server.cc:936-960 | READDIR likewise |
| `Filing.ReaddirPlusRead` | src/server.cc:962-986 | READDIRPLUS likewise |
| `Filing.CommitRead` | src/server.cc:1059-1080 | COMMIT likewise |
| `Filing.RenameRead` | src/server.cc:861-885 | RENAME likewise, under the first directory |
| `Filing.ReadRead` | src/server.cc:604-624 | READ likewise, with its count |
| `Filing.WriteRead` | src/server.cc:631-690 | WRITE for any argument bytes: the handle and the count as far as they decode, a stray count if only that does |
| `Filing.OthersRead` | src/server.cc:482-1090 | NULL, READLINK, LINK and unknown procedures file nothing |
| `Filing.HandleFiled` | src/server.cc:487-507 | Encoded arguments of GETATTR, FSSTAT, FSINFO and PATHCONF, whatever follows, file the handle under the procedure |
| `Filing.DirOpFiled` | src/server.cc:534-560 | LOOKUP, REMOVE and RMDIR likewise, with the name |
| `Filing.AccessFiled` | src/server.cc:564-586 | ACCESS likewise |
| `Filing.SetattrFiled` | src/server.cc:509-532 | SETATTR likewise |
| `Filing.CreateFiled` | src/server.cc:691-718 | CREATE likewise, with the name |
| `Filing.MkdirFiled` | src/server.cc:720-745 | MKDIR likewise, with the name |
| `Filing.SymlinkFiled` | src/server.cc:747-776 | SYMLINK likewise, with the name |
| `Filing.MknodFiled` | src/server.cc:778-808 | MKNOD likewise, with the name |
| `Filing.ReaddirFiled` | src/server.cc:936-960 | READDIR likewise |
| `Filing.ReaddirPlusFiled` | src/server.cc:962-986 | READDIRPLUS likewise |
| `Filing.CommitFiled` | src/server.cc:1059-1080 | COMMIT likewise |
| `Filing.RenameEventFiled` | src/server.cc:861-885 | RENAME likewise, under the first directory |
| `Filing.OthersKeepPaths` | src/server.cc:861-911 | No call but a RENAME whose arguments decode touches the path maps |
| `Filing.DirOpBytes` | src/nfs_prot_xdr.c:1155-1165 | Where the bytes of a handle and a name lie |
| `Filing.AccessBytes` | src/nfs_prot_xdr.c:1333-1343 | Of ACCESS arguments |
| `Filing.SetattrBytes` | src/nfs_prot_xdr.c:1225-1237 | Of SETATTR arguments, the guard included |
| `Filing.CreateBytes` | src/nfs_prot_xdr.c:1606-1616 | Of CREATE arguments |
| `Filing.MkdirBytes` | src/nfs_prot_xdr.c:1662-1672 | Of MKDIR arguments |
| `Filing.SymlinkBytes` | src/nfs_prot_xdr.c:1718-1740 | Of SYMLINK arguments |
| `Filing.MknodBytes` | src/nfs_prot_xdr.c:1822-1832 | Of MKNOD arguments |
| `Filing.RenameBytes` | src/nfs_prot_xdr.c:1978-1988 | Of RENAME arguments |
| `Filing.ReadBytes` | src/nfs_prot_xdr.c:1439-1451 | Of READ and COMMIT arguments |
| `Filing.ReaddirBytes` | src/nfs_prot_xdr.c:2090-2104 | Of READDIR arguments |
| `Filing.ReaddirPlusBytes` | src/nfs_prot_xdr.c:2178-2194 | Of READDIRPLUS arguments |
| `Filing.ReaddirPlusOkBytes` | src/nfs_prot_xdr.c:2228-2240 | Of READDIRPLUS results |
| `Calls.HandleInPayload` | src/server.cc:334-373 | A handle encoded in a reply's payload gives its padded key, whatever words lie around the payload |
| `Calls.LookupTeaches` | src/server.cc:1164-1196 | After a reply has taught an unknown handle, its path is found under the key that calls use if and only if the handle's length is a multiple of four |
| `Calls.LookupLearns` | src/server.cc:1164-1186 | A LOOKUP reply that starts with an encoded handle teaches that handle's padded key the path of the name asked for |
| `Learning.LearnChanges` | src/server.cc:1176-1185 | A new handle gets a path under its parent's path or, while the parent has none, under the parent's handle; a known one keeps what it has; nothing else changes |
| `Learning.MadeLearns` | src/server.cc:1258-1320 | A CREATE or MKDIR reply that starts with a handle teaches its padded key the path of the name asked for |
| `Learning.NothingLearned` | src/server.cc:1164-1482 | Nothing is learned from a failed reply, from one with an empty slot, from other procedures, or from CREATE and MKDIR without a handle |
| `Learning.ListingTeaches` | src/server.cc:1440-1470 | A READDIRPLUS reply with an encoded listing of any length: while the directory has no path nothing is learned; otherwise each handle keeps its path or gets that of the first entry that carries it, and each new path leads to the last handle that got it |
| `Learning.OneEntry` | src/server.cc:1460-1468 | A listing of /export whose only entry is a, with a new handle: its path is then /export/a, and leads to it |
| `Calls.WriteCrashesExactly` | src/server.cc:1240-1250 | A WRITE reply kills the program, whatever is in its slot, if and only if its first word announces old attributes and fewer than five of their six words are captured, or, on success, if it announces new ones and fewer than fourteen of their words are |
| `Calls.CrashesExactly` | src/server.cc:1240-1470 | A reply crashes the program if and only if it is a WRITE skipped through null, or a successful MKDIR with a handle or READDIRPLUS with a listing that finds no request in its slot |
| `Calls.TruncatedWrite` | src/nfs.cc:60-78 | A WRITE reply of one word that announces old attributes is such a reply |
| `Calls.MadeHandle` | src/server.cc:1258-1300 | The handle in the results of CREATE and MKDIR is found, as its padded key |
| `Calls.ReplyConsistent` | src/server.cc:1164-1482 | No reply makes the path maps inconsistent |
| `Calls.CallConsistent` | src/server.cc:861-911 | No call does, known or unknown as what it renames may be |
| `Requests.StepInv` | src/server.cc:168-189 | Every step keeps: what is in a slot is of that slot's hosts and procedure, held, unanswered and the newest of its kind |
| `Requests.ActiveIsOfItsLane` | src/server.cc:1131-1134 | In every reachable state the request in slot k is of that slot's hosts and procedure, unanswered and still held, the newest of them, and in no other slot |
| `Requests.CastIsSafe` | src/server.cc:1164-1308 | If each call branch files an object of its own class, then in every reachable state the object in a slot is of the class that the code taking it out casts it to |
| `Requests.ActiveIsPending` | src/server.cc:168-189 | Which request a slot holds, told from the history alone: the last call of these hosts and this procedure, unless answered, taken by a stray count or reported since |
| `Requests.WhenSettled` | src/server.cc:168-189 | A printed, answered or overtaken request is in no slot |
| `Requests.SettledForGood` | src/server.cc:168-189 | A request in no slot never changes again: what a report said stays true, and an overtaken request is never answered |
| `Requests.AnsweredOnce` | src/server.cc:1131-1134 | Each request is answered at most once, and is marked answered exactly if it was |
| `Requests.OverlappingCalls` | src/server.cc:180-189 | Of two calls of one procedure before the first reply, the reply to the first is taken to answer the second, the first is never answered, and the second reply finds an empty slot |
| `Requests.ReplyFindsItsCall` | src/server.cc:168-189 | A reply finds the call it answers in its slot if and only if, since that call, no other call of its hosts and procedure, no reply to one, no stray count for it and no report came |
| `Requests.ReplyToItsTransaction` | src/server.cc:1131-1134 | With distinct transaction ids, a reply is credited to a request of its own transaction if and only if the same holds |
| `Requests.Conservation` | src/server.cc:27-95 | At every point of a run and for every slot, requests and bytes printed and still held add up to those filed; a report whose file cannot be opened loses nothing |
| `Requests.ConservedFromStart` | src/server.cc:255-274 | From the start: requests printed and held are exactly the decoded calls; their bytes are those of the decoded calls plus the stray counts that hit the slot, so they are exactly the decoded bytes if and only if those sum to zero, as they do for all procedures but WRITE |
| `Requests.StrayCredited` | src/server.cc:668-677 | A WRITE call and a stray count behind it: the report says the bytes of both |
| `Clients.FileObject.AddObject` | src/server.cc:27-39 | A request is appended to its procedure's queue; every queue stays the requests of its procedure in order |
| `Clients.FileObject.Drain` | src/server.cc:66-85 | Emptying a queue counts its requests and adds up their bytes; the name is that of the procedure's class |
| `Clients.FileObject.PrintQueues` | src/server.cc:66-93 | One line for each queue that is not empty, with its count and, for reads and writes, its bytes |
| `Clients.BytesPrinted` | src/server.cc:84-90 | Bytes are printed for READ and WRITE only |
| `Clients.NamesDiffer` | src/nfs_prim.cc:40-156 | No two classes are printed under the same name |
| `Clients.FileObject.GenerateReport` | src/server.cc:60-95 | The file's part of a report, with the path it had when first seen, or else has now |
| `Clients.ClientObject.GetActiveObject` | src/server.cc:168-178 | The slot's request is returned and the slot emptied |
| `Clients.ClientObject.SetActiveObject` | src/server.cc:180-189 | The slot is overwritten |
| `Clients.ClientObject.GetFileObject` | src/server.cc:192-204 | The one file of a handle, made with its current path if there is none; its path is that at its first request |
| `Clients.ClientObject.AddRequest` | src/server.cc:496-503 | A request goes to its file's queue and into its procedure's slot, and nothing else changes |
| `Clients.ClientObject.GenerateReport` | src/server.cc:206-216 | The client's part of a report says of every handle and procedure what was held of it; exactly the handles asked about have a file in it, under their own id, with the path they had at their first request or else have now |
| `Clients.ClientObject.PrintFile` | src/server.cc:60-95 | One file of it, with its id, its path and its lines |
| `Server.WeighTally` | src/server.cc:27-95 | Filtering by client, then file, then procedure is the same as looking the slot up in the flat log |
| `Server.ServerThread.constructor` | src/server.cc:218-230 | A new server has no clients and an empty log |
| `Server.ServerThread.GetClient` | src/server.cc:232-249 | The one client of two hosts, in whichever direction they talk; an existing client is found, never doubled, and a new one has the hosts in the order of its first packet |
| `Server.ServerThread.FileRequest` | src/server.cc:496-503 | Filing a request in the nested index is filing it in the flat log, with the path that its handle has then |
| `Server.ServerThread.TakeRequest` | src/server.cc:1131-1139 | Taking a request off its slot is the log's step; its object is of the class for the slot's procedure |
| `Server.ServerThread.StoreNfs3Message` | src/server.cc:449-1096 | A call changes index, log, paths and clients as its decoded arguments say |
| `Server.ServerThread.StoreNfs3MessageResponse` | src/server.cc:1103-1525 | A reply changes log and paths as specified, and crashes exactly if its slot is empty and it is a MKDIR reply with a readable handle or a READDIRPLUS reply with a readable listing, or if it is a WRITE reply that WriteCrashesExactly describes |
| `Server.ServerThread.GenerateReport` | src/server.cc:255-274 | A report says of every slot what the log held of it, each pair of hosts that has talked once, in the direction of its first packet; each file under its id with the path it had at its first request since the last report, or else has now; without a file nothing changes but the report number |
| `Server.ServerThread.Handle` | src/server.cc:383-424 | A packet off the queue goes to the handler of its kind, only NFS version 3 having one: log, paths and clients become what its call or reply means for them, and it crashes exactly on the replies above |
| `Server.ServerThread.Run` | src/server.cc:375-438 | For any sequence of packets and reports: log, paths and clients are what these make of them in turn, each report tells of every slot, file and client what there was when it was due, and the loop ends early if and only if a reply kills the program, at the first that does |
| `Server.LogOfWorld` | src/server.cc:375-438 | The log after any work is that of its events, about which the Requests module proves what it does |
| `Server.FirstIsFirst` | src/server.cc:192-204 | The first request of a file in the nested index is the first one of its hosts and handle in the flat log |
| `Server.OtherVersions` | src/server.cc:383-424 | Packets of other NFS versions change nothing |
| `Server.LookupThenReply` | src/server.cc:1164-1186 | A LOOKUP call and the reply to it: the handle returned gets the path of the name asked for under the directory asked about |
| `Server.PathsConsistent` | src/server.cc:375-438 | After any sequence of packets and reports, every path that leads to a handle leads back |
| `Server.TruncatedWriteKills` | src/server.cc:1240-1250 | A WRITE reply of one captured word kills the program in every state |
| `Server.LoneMkdirKills` | src/server.cc:1290-1320 | A successful MKDIR reply with a handle kills it if its slot is empty, as at the start |
| `Server.LoneListingKills` | src/server.cc:1440-1470 | A successful READDIRPLUS reply with an encoded listing kills it if its slot is empty, as at the start |
| `Server.KillsOnly` | src/server.cc:1103-1525 | No report, call or packet of another version kills the program, and of replies only WRITE, MKDIR and READDIRPLUS, the last two only with NFS3_OK and an empty slot |
| `Server.CapturedCastIsSafe` | src/server.cc:1164-1308 | After any sequence of packets and reports, the object in a slot is of the class that the reply handler, and the WRITE call branch, cast it to |
| `EndToEnd.QueuePairsReplies` | src/main.cc:219-307 | Over every run of packets, each queued reply has a call before it in the queue with its transaction, its receiver's host and port, and its version and procedure, and no two replies have the same |
| `EndToEnd.ReplyFindsRequest` | src/server.cc:1131-1134 | If a call was filed, the reply to it finds its request in the slot if and only if it comes from the host that the call went to and nothing has disturbed the slot in between |
| `EndToEnd.CapturedReplies` | src/server.cc:375-438 | From packets to the log: whatever is captured and however the run loop is scheduled, each reply handled has its own call handled before it, and is credited to it in exactly that case |
| `EndToEnd.CapturedRead` | src/server.cc:604-624 | From the wire to the log: a frame around a record around a READ call, over TCP or UDP, comes to exactly one event, which files the call's handle, count and transaction id under its hosts |
| `Crawl.Decode` | src/nfsshares.cc:45-54 | A decoded page is a chain of fresh nodes holding its entries in order |
| `Crawl.Stitch` | src/nfsshares.cc:56-60 | Hanging a page behind the pages before gives one chain with the entries of both |
| `Crawl.FindLast` | src/nfsshares.cc:62-68 | The inner loop ends at the last node of the whole chain, also when the page is empty |
| `Crawl.CrawlExact` | src/nfsshares.cc:34-139 | The callbacks are the pre-order of the tree, without . and .., and nothing of a directory with a failed page; the program dies if and only if a directory that the crawl gets to has an empty first page, and has then reported a prefix of that pre-order |
| `Crawl.EmptyDirectory` | src/nfsshares.cc:54-74 | A directory listing with no entries at all kills the program |
| `Crawl.EmptyLastPage` | src/nfsshares.cc:54-77 | A listing that ends in an empty page is reported whole |
| `Crawl.NFSServer.ReadPages` | src/nfsshares.cc:43-77 | The paging loop ends with the chain of the whole listing in order, or fails if any page does; it dies exactly if the first page is empty; later pages may be empty |
| `Crawl.NFSServer.HandleDir` | src/nfsshares.cc:34-139 | The callbacks and whether the program dies are those of the recursive walk |
| `Crawl.NFSServer.HandleShares` | src/nfsshares.cc:178-230 | Every share that can be mounted is reported and crawled, in order, up to the one in which the crawl dies; the others are skipped |
| `Crawl.NFSServer.HandleShare` | src/nfsshares.cc:178-230 | One share: reported and crawled if it can be mounted, skipped otherwise |
| `Crawl.SharesExact` | src/nfsshares.cc:178-230 | The crawl of all shares dies if and only if that of some mounted share does, and has then reported a prefix of all their reports |
| `CrawlRoutes.ReportIsRoutes` | src/nfsshares.cc:34-139 | A crawl that gets through reports exactly one callback for each route down the tree through complete listings and past no . or .., with the handle's hex and the path of a slash and a name for each step, in lexicographic order |
| `CrawlRoutes.DiesOnRoute` | src/nfsshares.cc:54-139 | It dies if and only if some route leads to a directory with an empty first page, and has then reported exactly the routes up to and including the first of these |
| `CrawlRoutes.UsualListing` | src/nfsshares.cc:83-102 | Of a share with ., .. and one file, the share and the file are reported |
| `CrawlRoutes.TwoPages` | src/nfsshares.cc:43-77 | The second page is asked for with the last cookie and the verifier of the first |
| `CrawlRoutes.SharesInOrder` | src/nfsshares.cc:178-230 | Shares are crawled one after the other, up to the one that the crawl dies in |
| `CrawlRoutes.OneShare` | src/nfsshares.cc:184-225 | A share that cannot be mounted is passed over; another is reported and then crawled |
| `CrawlPaths.CrawlTeaches` | src/server.cc:320-332 | After a crawl into empty maps each handle has the first path reported for it, exactly those paths are known, and the maps are inverses if and only if no two handles have the same first path |
| `CrawlPaths.HardLink` | src/server.cc:13-15 | Of two names reported for one file only the first becomes known |

## Left out

- Capture.Sniffer.GotPacket: assumes that at most BUFSIZ (8192) bytes are captured, the limit that main.cc:402 passes to the capture library.
- Rpc.CallHeaderLength: takes authenticators of at most 400 bytes, the limit of RFC 5531.
- Keys.ReadDirKey: takes handles of at most 64 bytes, the limit of the protocol; longer ones would overrun the program's print buffer.
- XidRuns.BoundedGarbage: needs pairwise distinct outstanding keys, because culling removes newer twins first; XidRuns.BoundedStacks has the bound for any keys.
- Crawl.NFSServer.HandleDir: takes finite trees whose listings end; a server that never sets the end-of-listing flag, as one that answers the same empty page for ever, keeps the crawl going for ever.
- Server.ServerThread.GenerateReport: does not model the order of a report's lines, nor its minimum, maximum and average times; its counters are unbounded.
- Server.ServerThread.StoreNfs3Message: when a WRITE's handle does not decode, where the XDR library leaves the cursor is a parameter.
- Server.ServerThread.StoreNfs3MessageResponse: does not store the new handle in the request object, which nothing reads; runs without interference from the crawling threads, which PathMaps covers.
- Work times and `setWorkTime`, the `statv3` counters and the megabyte carry: uninitialised inputs and shallow arithmetic.
- The two 64-bit readers of nfs.cc only as far as the cursor moves; their values are not used.
- `xdr_bool` is a Boolean, except in PATHCONF where the stored word matters.
- The NFSv2 filters, handlers and statistics; the repetitive NFSv3 filters that add no new shape; `mountlist`; mount results are modelled as values, not as cursor methods.
- User and group ids of the credentials, which are read and not used.
- Object lifetimes, alignment and buffer sizes on the stack.
- Threads, locks, pcap, configuration, start-up, logging and report formatting.
