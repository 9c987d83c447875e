# Nextendo NEX server core: a model and its proofs

This project models the shared core of a NEX game server (the Go package `nex`) in Dafny and
proves properties of the model. Code that updates state in place is modelled by classes and
methods that do the same; each such method is proved equal to one step of a pure specification
function, and the theorems are about those functions and about every run of them.

| files | what they model |
|---|---|
| `Bytes`, `Lists` | bytes, little-endian integers, exclusive or; lists without repetitions |
| `PrudpLite` | the PRUDP-Lite packet codec and its incremental framing |
| `Streams`, `Structures`, `SessionCodec` | the NEX stream codec with its sticky error, tagged variants, maps in arbitrary order, and the two-level `MatchmakeSession` |
| `Fields`, `Layout`, `Frames` | where every field of sessions, packets and messages sits, position by position |
| `Rmc` | remote method call messages |
| `Transport`, `Connection`, `Delivery`, `Handshake`, `AckLoop` | one connection: handshake, 128-number duplicate window kept in a ring buffer, fragments, acknowledgements; end-to-end delivery, and the way back to the sender |
| `StationUrl` | station addresses: an ordered, duplicate-free key list |
| `RelaySeats`, `PairRelay`, `RelayTable` | the per-pair UDP relay: the two-seat pairing machine, the port allocator, its two tables and its accounting |
| `RelayNeed`, `RelaySeen`, `RelayLoop` | the two registries that forget, the volunteer list, and the loop from verdict to eligibility to grant and back |
| `MatchCriteria`, `MatchStore`, `MatchRuns`, `MatchLaws`, `StoreLaws`, `Matchmaking` | the matchmaking store: search filters, NAT classes, every handler's lock section, invariants of all runs, departures, host migration, automatic search |
| `Participation` | participation events sent after the lock is released, at once or later |
| `Tournament` | the tournament blob walker, its stamping, and the tournament store |
| `Ranking2` | deposits, rankings, pages and ranks |
| `Kerberos` | tickets, from login to accepted identity |

Clocks, random bytes, NAT verdicts, the connection table, whether a port can be bound, and the
order in which a Go map is walked are parameters or arbitrary choices. MD5, HMAC and the RC4
keystream are uninterpreted functions. One lock section is one atomic step.

What the code does, where its comments say otherwise or a caller might expect otherwise:

- A damaged packet makes `Feed` drop complete packets decoded from the same read
  (`PrudpLite.CorruptStreamDependsOnCut`), and damage in the first packet alone already makes the
  cut visible (`PrudpLite.DamageAtTheStart`). Every cut of a stream gives the same result exactly
  when its framing is intact or only its very last byte breaks it (`PrudpLite.CutsAgreeIff`).
- A new SYN clears the duplicate window but not a half-received message
  (`Delivery.SynKeepsPartialMessage`). The next session's first request is handed over exactly
  when nothing was left (`Delivery.FirstRequestAfterSynIff`).
- An acknowledgement compares 16-bit numbers as integers, so it releases what it should exactly
  while the numbers in flight have not wrapped (`Delivery.AckIsCumulativeIff`).
- A request on protocol 0x7F cannot be told from an extended one (`Rmc.RoundTripIff`).
- A failure inside a framed structure level is not seen by the reader of the outer stream
  (`Structures.EmptyLevelsGoUnseen`). That reader fails exactly when the bytes do not hold two
  frames by their length prefixes (`Structures.SessionErrorIff`).
- A tournament is refused when the 32-bit identifier counter has wrapped to zero
  (`Tournaments.TournamentStore.CreateTournament`).
- `CandidatsRelais` is described as listing players who never connected; it also lists players
  whose only successes were forgotten by a clean-up (`RelayNeed.ForgottenSuccessIsListed`), and
  `RelayNeed.CandidateIff` says exactly whom it lists, from the log of verdicts alone.
- A room can hold more members than it announces only after a partial update lowered the
  maximum, and can become empty only when an outsider closes it
  (`MatchRuns.PartKeepsWithinIff`, `MatchRuns.CloseKeepsInhabitedIff`).
- When an owner leaves a room that does not migrate, those left behind are told nothing unless
  the title asks for it, and nobody offline is told anything (`MatchLaws.DepartureNotices`).
- A member whose connection changes inside a room can miss participation events, or be missed by
  others (`Participation.ReconnectionLosesNews`); `Participation.ConnectionChangeLoses` says
  exactly which.
- A station address without a scheme survives printing and parsing only when it has no parameters
  (`StationUrl.RoundTripIff`).
- A player paired with itself gets its two expected addresses in call order
  (`PairRelays.AskIsSymmetricIff`).

## Model

| member | source | states |
|---|---|---|
| PrudpLite.EncodePacket | prudp_lite.go:78-111 | the bytes appended field by field are the packet's wire form |
| PrudpLite.DecodeLiteOptions | prudp_lite.go:155-183 | the option loop: unknown options skipped, truncated ones refused |
| PrudpLite.DecodePackets | prudp_lite.go:116-153 | the decode loop yields the complete packets, the unread tail and whether framing held |
| PrudpLite.OptionsRoundTrip | prudp_lite.go:93-183 | options printed for any packet parse back to the signature, connection signature, version and 24-bit function mask it carries |
| PrudpLite.HeaderRoundTrip | prudp_lite.go:78-153 | the twelve header bytes give back every header field and the exact total size, whatever follows |
| PrudpLite.EncodeDecode | prudp_lite.go:78-183 | parsing a printed packet followed by anything gives back all its wire fields and exactly what followed |
| PrudpLite.DecodeEncodedAll | prudp_lite.go:116-153 | any list of printed packets decodes to that list, then whatever follows |
| PrudpLite.DecodeExtends | prudp_lite.go:116-153 | bytes that arrive later never change what was decoded, and never repair a corrupt stream |
| PrudpLite.ChunkIndependence | endpoint.go:350-363 | on a well-formed stream every way of cutting it into reads gives the same packets and leftover |
| PrudpLite.FramingRoundTrip | endpoint.go:350-363 | any chunking of any packets plus a partial one hands over exactly those packets, in order, and keeps only the partial bytes |
| PrudpLite.StrictPrefixNeedsMore | prudp_lite.go:116-137 | every strict prefix of a packet waits for more instead of failing |
| PrudpLite.CutsAgreeIff | endpoint.go:350-363 | all ways of cutting a stream into reads give the same packets and leftover exactly when its framing is intact, or nothing is complete before its last byte and only that byte breaks it |
| FrameLayout.PacketLayout | prudp_lite.go:78-111 | the printed packet is exactly the bytes that hold each header field, option and payload byte at its position |
| FrameLayout.LaidOutPacketReads | prudp_lite.go:116-183 | bytes that hold a packet's fields at their positions decode to that packet, whatever follows |
| Streams.ReadAnyPidBack | settings.go:82-95 | every PID written in its public form reads back translated, cut to the width and translated again |
| Streams.ReadStringBack | stream.go:59-65 | a string within the 16-bit length is read back whatever surrounds it |
| Streams.ReadBufferBack | stream.go:92-243 | a buffer within the 32-bit length is read back whatever surrounds it |
| Streams.StreamIn.Read | stream.go:164-174 | the bytes and the cursor of one raw read: past the end nothing is read and the error sticks, except that a read of nothing never fails |
| Rmc.Encode | rmc.go:49-84 | requests, successes and failures with their flag, escape and status bytes |
| Rmc.ParseRMC | rmc.go:87-119 | the parser, with its size check and its sticky error |
| Rmc.EncodeParse | rmc.go:49-119 | a printed message parses back to what the wire carries: a response loses bit 15 of its method, an error code gains its top bit |
| Rmc.RoundTripIff | rmc.go:49-119 | the exact messages that come back unchanged; protocol 0x7F does not |
| Rmc.ParsedSize | rmc.go:87-119 | the size of everything the parser accepts is fixed by the size prefix and the parsed body |
| FrameLayout.MessageLayout | rmc.go:49-84 | the printed message is exactly the bytes that hold size, protocol, call, method or result with its marking bit, and body at their positions |
| Connections.RingPush | endpoint.go:613-623 | a ring of 128 slots and a cursor is a list that forgets its oldest entry |
| Connections.Connection.DejaRecu | endpoint.go:613-623 | seen exactly when among the last 128 accepted numbers; otherwise remembered |
| Connections.Connection.AckPackets | endpoint.go:785-796 | releases every pending number at or below the base, and those listed |
| Connections.Connection.MultiAck | endpoint.go:567-581 | the aggregate acknowledgement's count and ids, read only when present |
| Connections.Connection.ProcessData | endpoint.go:566-608 | acknowledge, drop duplicates, append the fragment, dispatch a finished message |
| Handshake.DataAnswered | endpoint.go:566-608 | a reliable data packet, repeated or not, is answered with one frame that reads as its own type, number and fragment with the ACK flag alone, from our port to the peer's |
| Handshake.PingAndDisconnect | endpoint.go:380-396 | a ping or disconnection is answered exactly when it asks to be and is no answer; only a disconnection closes |
| Connections.Connection.ProcessSYN | endpoint.go:420-450 | a SYN resets the window and answers, keeping the fragment buffer |
| Handshake.SynAnswered | endpoint.go:420-450 | the answer reads as coming from the port the console targeted, to the port it spoke from, with the smaller version and exactly the function bits both sides have; nothing but ports, window, signature and agreed values changes |
| Handshake.ConnectAnswered | endpoint.go:452-490 | an accepted login is answered once under number 1 with its response and connects; a refused one changes nothing |
| Connections.Connection.HandlePacket | endpoint.go:365-418 | the packet dispatch, the new state being one step of the transport function |
| Connections.Connection.Feed | endpoint.go:350-363 | a read hands over its packets in order, or none when the framing is corrupt |
| Connections.Connection.SendData | endpoint.go:704-751 | the fragment loop: ids from 1, 0 on the last, stopping when the 8-bit id wraps |
| Connections.Connection.SendRMC | endpoint.go:680-682 | a message goes out as the fragments of its wire form |
| Connections.Connection.SendOneFragment | endpoint.go:755-781 | one numbered, pending, emitted frame |
| Handshake.FragmentSent | endpoint.go:755-781 | the frame reads as reliable data from our port to the peer's with the fragment's id and bytes under the next number, wrapping at 16 bits, and stays pending under it |
| Delivery.FragmentsOfMessage | endpoint.go:704-751 | the fragments carry the message's first 256 fragments' worth, end exactly once, and only when all of it fits |
| Delivery.SendAllSends | endpoint.go:704-781 | successive sends emit consecutively numbered frames, wrapping at 16 bits |
| Delivery.TruncatedDoesNotParse | rmc.go:87-119 | a message cut by the fragment limit never parses |
| Delivery.AssembleMessages | endpoint.go:601-608 | the frames of several messages in order reassemble to exactly the messages that fit |
| Delivery.WindowKnows | endpoint.go:613-623 | a number is in the window exactly while among the last 128, across the 16-bit wrap |
| Delivery.AnswersChangeNothing | endpoint.go:634-695 | whatever handlers and pushes send on the connection between packets, the requests handed over, the buffers and the acknowledgements sent, in order, are those of a connection that sends nothing else |
| Delivery.ExactlyOnce | endpoint.go:350-846 | end to end, with any answers sent meanwhile: the receiver hands over exactly the requests that fit, once each and in order, keeps no leftover, and its acknowledgements are one for every arrival, in order, each reading as the arrival's type, number and fragment with the ACK flag alone, wherever the counter starts |
| AckLoop.SentAreKept | endpoint.go:704-781 | everything sent stays pending under its number |
| AckLoop.ArrivedIsReleased | endpoint.go:350-846 | when the first k of n frames arrive, repeated and cut at will, and the receiver's acknowledgements travel back, the sender keeps exactly the n - k others, as long as the numbers have not wrapped |
| Delivery.FirstRequestAfterSynIff | endpoint.go:420-608 | the packets of the first request handled after a SYN hand it over exactly when no part of an older message was left |
| Delivery.SynKeepsPartialMessage | endpoint.go:420-608 | one unfinished fragment, a SYN, and the packets of the next session's first request do not hand it over |
| Delivery.AckIsCumulativeIff | endpoint.go:566-796 | handling an acknowledgement, single or aggregate, releases exactly the packets up to its number and those it lists, with any packets between the oldest and the newest in flight already released, exactly while the numbers in flight have not wrapped |
| Structures.ReadVariantBack | types.go:264-300 | every variant, negative integers included, reads back whatever surrounds it |
| Structures.ReadMapBack | stream.go:281-295 | a map written in any order reads back, and the count guard never refuses what was written |
| Structures.ReadGatheringBack | matchmaking.go:23-50 | the base level round trip |
| Structures.SessionRoundTrip | matchmaking.go:23-154 | a session within the length bounds, written in any map order, with or without structure headers, decodes to itself with no error and every byte consumed |
| Structures.SessionErrorIff | types.go:48-60 | with headers on, for every byte string, reading a session fails exactly when the bytes do not hold two frames by their length prefixes |
| Structures.EmptyLevelsGoUnseen | types.go:48-60 | two empty frames: both levels fail to read and no error is reported |
| WireLayout.SessionLayout | matchmaking.go:23-154 | what is written is the session exactly when every field of both levels, their frames, the attributes and the parameters in their order sits at its position |
| WireLayout.LaidOutReads | matchmaking.go:23-154 | bytes that hold a session's fields at their positions read as that session, with no error and nothing left |
| SessionCodec.WriteMap | stream.go:121-127 | the write loop over a map in an arbitrary order |
| SessionCodec.WriteSession | types.go:31-44 | writing both levels puts every field at its position behind what was in the buffer, for some order of the parameter map |
| SessionCodec.ExtractSession | types.go:48-60 | reading both levels field by field; bytes laid out as a session give that session |
| SessionCodec.Echo | matchmaking.go:112-154 | write then read on the stream objects gives the same session and no error |
| StationUrl.StationURL.Set | types.go:159-167 | a new key goes last, an old one keeps its place |
| StationUrl.StationURL.Remove | types.go:184-195 | the key and its value go, the others keep their order |
| StationUrl.StationURL.Copy | types.go:198-204 | a copy shares nothing and is equal |
| StationUrl.SetThenRemove | types.go:159-195 | setting a new key and removing it restores the address |
| StationUrl.ParseStationURL | types.go:136-156 | the parse loop; the keys stay duplicate-free and are the map's domain |
| StationUrl.PrintParse | types.go:136-217 | scheme, order and values come back when no separator occurs where it would cut |
| StationUrl.ParsedIsPlain | types.go:136-156 | everything parsed is free of such separators |
| StationUrl.RoundTripIff | types.go:136-217 | the exact addresses, with or without a scheme, that survive print then parse |
| RelaySeats.PairSocket.Apparier | relaypair.go:475-530 | the pairing of one packet, counters and remaps included |
| RelaySeats.PairSocket.Boucle | relaypair.go:363-393 | one turn of the forwarding loop |
| RelaySeats.SeatsStayDifferent | relaypair.go:475-530 | the two seats never hold the same endpoint, so nothing returns to its sender |
| RelaySeats.PairingIsALog | relaypair.go:475-530 | in different networks each seat is the latest source of its side, by address or /24; a packet of one side goes to the latest source of the other or nowhere, and a packet is rejected exactly when it is of neither |
| RelaySeats.SharedNetworkPairing | relaypair.go:475-530 | in one network the first two distinct endpoints are seated for good and everyone else rejected |
| RelaySeats.Accounting | relaypair.go:363-393 | received is relayed plus rejected plus seated alone, and relayed is the sum of the two sides |
| RelayTable.HashPair | relaypair.go:176-197 | the byte loop computes the 64-bit hash of the ordered pair |
| PairRelays.HashIsFnv | relaypair.go:187-194 | the hash is FNV-1a over the sixteen bytes of the two PIDs, exclusive or on 64 bits |
| PairRelays.SamePairIff | relaypair.go:182-186 | two requests are about one pair exactly when they name the same two players, in any order |
| RelayTable.PairRelayTable.ChoosePort | relaypair.go:278-296 | the pair's own port or the first of eight probed ports free or its own |
| RelayTable.PairRelayTable.PairRelayFor | relaypair.go:231-360 | one request, refined to the allocator function, the tables staying inverse |
| RelayTable.PairRelayTable.CloseWhere | relaypair.go:579-643 | the closing loop in any order adds up every closed socket's counts |
| RelayTable.PairRelayTable.ReapPairSockets | relaypair.go:579-628 | one reaper pass closes exactly the silent sockets |
| RelayTable.PairRelayTable.SetPairRelay | relaypair.go:149-157 | an empty host closes everything |
| PairRelays.NoForeignSocket | relaypair.go:283-325 | the two defensive mismatch branches are never taken |
| PairRelays.TablesAreInverse | relaypair.go:231-360 | in every reachable state a pair has at most one port and a port one pair |
| PairRelays.PortsInRange | relaypair.go:176-197 | under one configuration every open port is in the configured range |
| PairRelays.AskIsSymmetricIff | relaypair.go:231-352 | both call orders give the same port, state and expected-address order exactly when the players differ, or the one player has one address, or a guard leaves the request without a port |
| PairRelays.PortIsHeldIff | relaypair.go:278-628 | through any further run a pair keeps its port, and the same one, exactly when no switching off and no reaper pass that finds it silent for over two minutes comes by |
| PairRelays.PortIsSticky | relaypair.go:231-360 | whatever happens between two requests of a pair, in either order, short of closing its port, the second is answered with the first one's port, even one that can no longer be bound, and arms it with the lower PID's address first |
| PairRelays.ReaperClosesIff | relaypair.go:579-628 | after any run a reaper pass closes a pair's port exactly when for over two minutes the pair neither asked for it nor received a packet on it |
| PairRelays.AskLeavesOthersAlone | relaypair.go:271-325 | a request never touches another pair |
| PairRelays.RefusedIff | relaypair.go:231-306 | a request is left without a port exactly when the relay is off, an address is missing, the pair is not entitled, or it has no port yet and all eight probes are taken or the port cannot be bound |
| PairRelays.FirstFreeIsGiven | relaypair.go:278-298 | a pair without a port is given the first of the eight ports after its hash that nobody holds |
| PairRelays.TotalsAccountForEverything | relaypair.go:547-575 | totals and live sockets account for every packet and every port ever opened |
| RelayNeed.NeedRegistry.NotePercage | relaybesoin.go:57-112 | one verdict joins the log the registry answers for, with the clean-up loop at most once a minute |
| RelayNeed.NeedRegistry.BesoinDeRelais | relaybesoin.go:115-122 | after chronological verdicts, true exactly when by the full log the player's last two failed at most 15 minutes apart, the last at most 15 minutes ago |
| RelayNeed.NeedRegistry.CandidatsRelais | relaybesoin.go:169-182 | the list is sorted and names exactly the players whose verdicts, from the start or from a clean-up more than 15 minutes after the last one on, are ten failures or more and no success; of the players without any success exactly those with ten verdicts |
| RelayNeed.EligibleIffLog | relaybesoin.go:57-122 | whatever the clean-up moments, a player is eligible exactly when the last two verdicts failed at most 15 minutes apart, the last at most 15 minutes ago |
| RelayNeed.ScheduleIsNoted | relaybesoin.go:57-112 | noting verdicts one by one is the run of the log in which a clean-up precedes every verdict that finds the last one over a minute old |
| RelayNeed.CandidateIff | relaybesoin.go:57-182 | of every log of verdicts: listed exactly with ten failures and no success since the start or since a clean-up that found the player silent for over 15 minutes; a player without success is never dropped |
| RelayNeed.ForgottenSuccessIsListed | relaybesoin.go:57-182 | eleven verdicts, a success then ten failures over 15 minutes later, list a player who did connect |
| RelaySeen.SeenRegistry.NoterPaireRelayee | relayvu.go:46-68 | one grant joins the log the registry answers for, with the purge loop at most once a minute |
| RelaySeen.SeenRegistry.PaireRelayee | relayvu.go:72-79 | after chronological grants, true exactly when the full log has one to this pair, in either order, at most five minutes old |
| RelaySeen.RelayedIffGranted | relayvu.go:37-79 | a pair counts as relayed exactly when the full log has a grant to it, in either order, at most five minutes old |
| RelayLoop.VolunteerList.SetRelayVolontaires | relayvolontaires.go:35-53 | afterwards exactly the listed and the forced are authorised, or everyone, exactly the forced are forced, and PID 0 never by name |
| RelayLoop.RelayService.PairRelayFor | relaypair.go:231-360 | authorisation, then need, then the allocator; only a success is noted |
| RelayLoop.RelayService.LogNATResult | nattraversal.go:296-302 | which verdicts are counted |
| RelayLoop.LoopRefinesLedger | relayvu.go:37-79 | over any chronological run the relay's state and all later answers are those of a system that keeps every verdict and grant: forgetting is unobservable |
| RelayLoop.GrantIff | relaypair.go:231-306 | a port is granted exactly to authorised pairs of which one is forced or needy by the full log, unless the relay is off, an address is missing, or the pair has no port and none of the eight tried is free and can be bound |
| RelayLoop.VerdictCountsIff | nattraversal.go:288-302 | a verdict about a connected peer whose pair was granted at most five minutes before changes nothing; any other is counted |
| RelayLoop.EligibilityDecays | relayvu.go:5-28 | a player whose only verdicts concern pairs just relayed stops being eligible after 15 minutes, whatever they say |
| MatchCriteria.FilterMeaning | matchmaking_criteria.go:62-81 | the printed filters mean any value, one value, a range or a lower bound |
| MatchCriteria.CriterionMeaning | matchmaking_criteria.go:23-61 | a criterion of printed ranges accepts a room exactly when its numbers are in the ranges, the free places suffice and the exclusions and codeword hold |
| MatchCriteria.NatRule | matchmaking_handlers.go:617-647 | on the reported numbers, two players are refused exactly when one has a mapping of 2 or more and the other a 2 or more anywhere |
| MatchCriteria.FindConnectionByPID | endpoint.go:142-159 | the connection with the highest id, whatever the map order |
| MatchCriteria.GatheringNatCompatible | matchmaking_handlers.go:661-671 | true exactly when, by the numbers reported, the joiner can punch through to the newest connection of every other member |
| MatchmakingHandlers.FinalizeCreatedSession | matchmaking_handlers.go:462-495 | everything the server sets on a new session, padding loop included |
| MatchmakingHandlers.Matchmaking.ReleaseAbandonedSolo | matchmaking_handlers.go:520-537 | exactly the other rooms where the player is alone go, with their codes |
| MatchmakingHandlers.Matchmaking.CreateGathering | matchmaking_handlers.go:498-507 | the new room, the wrapping id counter, the releases |
| MatchmakingHandlers.Matchmaking.CreateSession | matchmaking_handlers.go:808-829 | creation with the optional parameter normalisation |
| MatchmakingHandlers.Matchmaking.FindRoom | matchmaking_handlers.go:716-771 | for every visiting order the search settles on an eligible room with an online owner, else an eligible one, else none |
| MatchmakingHandlers.Matchmaking.AutoMatchmake | matchmaking_handlers.go:701-797 | the lock section: the store, the session answered and the snapshot to announce |
| MatchmakingHandlers.Matchmaking.JoinSession | matchmaking_handlers.go:845-888 | the lock section with its void and full answers |
| MatchmakingHandlers.Matchmaking.SetParticipation | matchmaking_handlers.go:1224-1264 | closing prunes exactly the unreachable members other than the caller |
| MatchmakingHandlers.Matchmaking.MigrateGatheringOwnership | matchmaking_handlers.go:1418-1443 | the first candidate that is a member trades places with the front |
| MatchmakingHandlers.Matchmaking.LeaveGathering | matchmaking_handlers.go:1509-1560 | one room: emptied, deleted, migrated or just smaller |
| MatchmakingHandlers.Matchmaking.LeaveEverywhere | matchmaking_handlers.go:1504-1572 | the lock section: the same store and the same rooms to tell of for every visiting order |
| MatchmakingHandlers.SendToAll | matchmaking_handlers.go:1575-1590 | one notice to each listed player's newest connection, none to the offline |
| MatchmakingHandlers.Matchmaking.RemovePlayer | matchmaking_handlers.go:1478-1616 | the store and how often each notice is sent, for every visiting order |
| MatchmakingHandlers.Matchmaking.EndParticipation | matchmaking_handlers.go:1618-1630 | the caller leaves; an empty room goes |
| MatchmakingHandlers.Matchmaking.Unregister | matchmaking_handlers.go:1194-1210 | only the owner deletes |
| MatchmakingHandlers.Matchmaking.MigrerHebergementDepuis | matchmaking_hebergement.go:27-82 | every room hosted or owned is taken over by its first other reachable member, whatever the order |
| MatchmakingHandlers.Matchmaking.ApplySessionPart | matchmaking_acnh.go:385-420 | the fields a partial update writes, and the code table |
| MatchRuns.CreateKeepsInvIff | matchmaking_handlers.go:498-507 | creation keeps the store well formed exactly when the id counter is not at its last value |
| MatchRuns.CloseKeepsInhabitedIff | matchmaking_handlers.go:1248-1263 | closing empties a room exactly when an outsider closes it and no member is reachable |
| MatchRuns.PartKeepsWithinIff | matchmaking_acnh.go:411-413 | a partial update breaks the capacity bound exactly when it announces fewer places than members |
| MatchRuns.StoreInvariant | matchmaking_handlers.go:462-537 | after every run, ids are keys below the next id, members are listed once, announced counts are exact and fit 16 bits |
| MatchRuns.RoomsStayWithin | matchmaking_handlers.go:845-893 | without such an update no room exceeds what it announces |
| MatchRuns.RoomsStayInhabited | matchmaking_handlers.go:1224-1284 | while members close their own rooms, no room is empty |
| StoreLaws.CreatedSession | matchmaking_handlers.go:462-507 | every field of a new session: what the server sets, and that everything else is the client's |
| StoreLaws.SessionCreatedLaw | matchmaking_handlers.go:808-829 | a created session is the new one, save that an unsigned "@RV" parameter below 2^63 turns signed where the title asks for it |
| StoreLaws.ParticipationLaw | matchmaking_handlers.go:1224-1264 | the open flag is what was asked; closing keeps exactly the caller and the connected, in order, under their exact number |
| StoreLaws.HandOverLaw | matchmaking_handlers.go:1418-1443 | the first candidate that is a member and the front member change places and nothing else changes |
| StoreLaws.EndLaw | matchmaking_handlers.go:1618-1630 | the caller is gone, the others keep order and exact number, the room goes exactly when nobody else was in it |
| StoreLaws.UnregisterLaw | matchmaking_handlers.go:1194-1210 | a room goes by its owner's call and no other |
| StoreLaws.PartLaw | matchmaking_acnh.go:385-420 | which fields a partial update writes, by flag bit and value, and that no other changes |
| MatchLaws.RemovalLaw | matchmaking_handlers.go:1478-1572 | the player is nowhere, survivors keep their order, an ownerless room survives exactly with migration, under its first member |
| MatchLaws.DepartureNotices | matchmaking_handlers.go:1524-1605 | a member an owner leaves behind hears the room's fate exactly once if it is online and the room migrates or the title announces deletions, the matching news on its newest connection, and otherwise nothing |
| MatchLaws.OnlyMembersHear | matchmaking_handlers.go:1574-1605 | nobody but the members left behind hears of it |
| MatchLaws.OwnerHearsOfDeparture | matchmaking_handlers.go:1504-1616 | the owner of the surviving room, new or old, hears of the departure exactly once, on its newest connection at the time of the lock section, where departures are announced, and nobody else does |
| MatchLaws.RemovalsCommute | matchmaking_handlers.go:1478-1572 | two departures give the same store in either order |
| MatchLaws.HostingLaw | matchmaking_hebergement.go:27-82 | no member is lost; the player still hosts exactly where nobody else is reachable; the new host is the first reachable other member, at the front, and reached by its newest connection |
| MatchLaws.HostingSavesRooms | matchmaking_hebergement.go:9-24 | migrating the host first protects the room from the later removal, even without owner migration |
| MatchLaws.AutoMatchLaw | matchmaking_handlers.go:627-797 | joins a room that suits the search, by mode, free places, password, criteria and reported NAT numbers of every other member, whenever one exists, one with a connected owner when there is one, and otherwise opens its own and is alone in no other |
| Participation.EveryPairIsToldOrPending | matchmaking_local.go:13-41 | in every interleaving, reconnections inside rooms included, each ordered pair of present members that kept their connection since they entered has the event delivered or on its way |
| Participation.QuietMeansComplete | matchmaking_handlers.go:554-586 | once nothing is on its way such members have all been told of one another |
| Participation.CalmMeansAllSteady | matchmaking_local.go:13-41 | where nobody reconnects inside a room those are all the members |
| Participation.ConnectionChangeLoses | matchmaking_local.go:18-25 | which pairs are still told or about to be after a member disconnects or moves to a new connection, exactly |
| Participation.ReconnectionLosesNews | matchmaking_local.go:22-25 | a member reconnecting before its own delayed announcement is due is told of nobody by it, and nobody of that member |
| Tournaments.TournamentCodeOffset | tournament.go:160-207 | the walk terminates on every input and finds the same offset as its recursive form |
| Tournaments.CodeOffsetIff | tournament.go:160-207 | the offset is found exactly where the payload, laid out as name, typed properties and terminator, has its code field |
| Tournaments.StampTournament | tournament.go:248-272 | the byte splicing |
| Tournaments.StampAccepted | tournament.go:221-305 | an accepted payload grows by twelve bytes, keeps its code offset, reads its code back and changes nowhere else past byte 12 |
| Tournaments.TournamentStore.CreateTournament | tournament.go:276-305 | created exactly when the payload is accepted, there is room and the counter is not zero; the final check never refuses otherwise |
| Tournaments.TournamentStore.JoinTournament | tournament.go:332-348 | a player is listed once |
| Tournaments.TournamentStore.DeleteTournament | tournament.go:423-434 | only the creator deletes |
| Ranking2.EntryIsFirstBest | ranking2_scores.go:267-285 | an entry is the first deposit reaching that player's maximum |
| Ranking2.RankingUnique | ranking2_scores.go:292-307 | there is one strict ranking of a category, so the map order does not matter |
| Ranking2.Ranking2Store.Deposer | ranking2_scores.go:267-285 | only a strictly better score replaces |
| Ranking2.Ranking2Store.PutScore | ranking2.go:107-137 | one call's scores are deposited in order, each with its category, player and value, none of them when it announces more than 256 |
| Ranking2.Ranking2Store.Classement | ranking2_scores.go:292-307 | the list filled in any order holds every entry once, higher scores first, equal scores by ascending PID |
| Ranking2.Ranking2Store.GetRanking | ranking2.go:192-231 | the requested number of rows from the requested place on, higher scores first, each ranked one plus the number of players with a higher score or the same and a lower PID |
| Ranking2.Ranking2Store.GetRankingByPIDs | ranking2.go:258-271 | exactly the wanted players that are ranked, best first, each with that same rank |
| Ranking2.Ranking2Store.GetEstimateMyRank | ranking2.go:281-296 | that same rank and the score, or one past the last and zero |
| Ranking2.RankCountsBetter | ranking2_scores.go:292-307 | a position is the number of players with a higher score, or the same and a lower PID |
| Ranking2.PagesCover | ranking2.go:192-231 | successive pages concatenate to the ranking |
| Ranking2.RanksAgree | ranking2.go:192-296 | page rank, by-PID rank and estimated rank are one plus the number of players with a higher score, or the same and a lower PID |
| Kerberos.DecryptEncrypted | kerberos.go:63-84 | opening what was sealed under the same key gives it back |
| Kerberos.TicketLayout | kerberos.go:95-180 | both tickets position by position: time, PID and session key, or session key, PID and inner ticket, xored with the keystream and followed by the checksum of the result |
| Kerberos.ServerTicketRoundTrip | kerberos.go:131-180 | the inner ticket returns in both versions, its PID as it reads back from the wire |
| Kerberos.ClientTicketRoundTrip | kerberos.go:95-119 | the outer ticket returns, its PID as it reads back from the wire |
| Kerberos.MintTicket | ticketgranting.go:384-399 | the minting steps |
| Kerberos.ProcessLoginRequest | endpoint.go:497-564 | the checks of a CONNECT payload, in order |
| Kerberos.LoginIsProved | endpoint.go:497-564 | any payload accepted held a ticket that opens under the server's key and, sealed under its session key, that ticket's PID, the connection id given and a check value; the answer's eight bytes are four and that value plus one |
| Kerberos.TicketToIdentity | endpoint.go:528-563 | for every login, declared PID and check value the minted ticket is accepted, as the login's PID, exactly when the declared PID reads back from the wire as the login's does, and answered with the number four and the check value plus one, on four bytes each |

## Left out

- Goroutine interleavings inside one lock section or one message: a lock section is one step and a multi-fragment send is not interleaved with another.
- Sockets, WebSocket, TLS, proxy headers, HTTP, logging, packet dumps, environment variables, JSON files and their reloading.
- Retransmission, idle timers and the closing of a connection's resources (endpoint.go:802-857): delivery assumes frames arrive, possibly repeated.
- Connections.Connection.HandlePacket: does not record the time of the last packet, which only the reaper reads; a handler of a non-standard packet is modelled by the frames it sends.
- The raw UDP V1 codec and server, a near copy of the Lite codec.
- The handler tables and the byte form of most responses; a response is modelled by the value it carries.
- Connections.Connection.DispatchRMC: records a parsed request; which handler answers it is not modelled, and its answers are arbitrary messages sent after the packet.
- The strength of MD5, HMAC and RC4, key derivation counts, and random generation; the keystream is one function of the key, and RC4's own refusal of an empty or overlong key is not modelled.
- Ranking2.RanksAgree: ranks are mathematical numbers; the 32-bit width of the rank field is not modelled.
- Tournament search, listing and summaries, and the random codes.
- The relay's packet capture, its per-source rejection log lines and the station rewriting that announces the port.
- RelayLoop.RelayService.LogNATResult: starts from the parsed report; a report that does not parse is dropped by the code and is no event here.
- MatchCriteria.FilterMeaning: trimming knows the ASCII blanks only, not the other Unicode spaces.
- Pointer identity of a gathering: rooms are values in the table, so code that keeps a pointer after releasing the lock is not modelled.
- Application buffers, single attributes and attribute lists written by the host (matchmaking_handlers.go:1332-1410), room code generation and the consistency of the code table, browsing and lookup of sessions, station bridging and session addresses, friend notification data: they change nothing the invariants speak of, or only add easy members.
- The extra announcements of an ownership hand-over (matchmaking_handlers.go:1446): ignored among the participation events, as they can only tell more.
- Eagle hand-over, referee statistics, profile serialisation and utility settings.
