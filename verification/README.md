# coturn: session tables, TURN allocations and the STUN codec

A Dafny model of three connected parts of the coturn STUN/TURN server, with proofs. `dafny verify dfyconfig.toml`
checks all of it.

**The hash index under the session tables.** `Probe`, `RoundUp`, `KhashFlags`, `KhashTable`, `Khash` and `UrMap` model
khash and `ur_map`: open addressing over power-of-two arrays with triangular probing, tombstones in packed two-bit
flags, and a rehash in place that kicks pairs out of the way. Over every sequence of operations the table stands for a
mathematical map. `RtcpProtocol` is the reservation map on top as a state machine whose steps are the critical sections
under its mutex, in any interleaving; `RtcpMap` is the imperative code and refines it step by step. `LmMap` is the
small table in each permission.

**The allocation.** `TurnSpec` says what an allocation means: permitted addresses, and numbers that stand for peers.
`TurnGraph` has the records - permissions, channels, timers and the pointers between them - and the invariant of the
web they form: each channel hangs in the port table of the permission for its IP address, the two indexes are inverse,
timers and records correspond one to one. `Allocation` keeps the hash tables of these records, updated in place, and
`TurnServer` has the request handlers, the timer handlers and the two directions of data. A `Session` carries the
history of its events as ghost state, so that what the data path does is stated in terms of the requests that were
accepted before.

**The codec.** `Bytes`, `StunMsg`, `StunBuild`, `StunHeader`, `StunAuth`, `Crc`, `StunAddr`, `AddrMapping`, `Http`,
`Framing` and `Base64` model attributes, message types, MESSAGE-INTEGRITY, FINGERPRINT, CRC-32, addresses, ChannelData,
stream framing and base64, over arbitrary bytes. `Requests` joins the codec to the handlers, and `EndToEnd` the
handlers, the data path and the framing: from the bytes of a ChannelBind request to the bytes of the data in both
directions.

## What the proofs found

These are places where the code does less than its name or its callers suggest; the model follows the code.

- A khash table keeps an empty bucket exactly as long as fewer buckets have been used than there are (`RoomStays`).
  Below 2^31 buckets this is always so; at 2^31, where `n_buckets + 1` rounds up to 0 and the resize does nothing, it
  can fill up (`FillUp`). Searches still end there, as they see every bucket (`FirstReturn`).
- `ur_map_put` fails exactly if the key is not there and 2^31 others are, and it then deletes the entry of some other
  key (`UrMap.Put`, `PutTooMany`).
- `rtcp_map_put` overwrites an entry of the same token without closing its socket, and the expiry handler, which works
  off its list after it has released the mutex, closes a socket reserved meanwhile under a token on the list
  (`DroppedExactly`, `OneFateExactly`, `ReusedTokenLeaks`; `LiveClosedExactly`, `ReusedTokenCloses`).
- `turn_time_before` tells on a 32-bit clock whether 300 seconds have passed since a reservation for 2^31 seconds after
  that, then for as long not, and so on (`ExpiredExactly`, `ExpiredTooLate`).
- `lm_map_put` stores a second copy of a key unless the key stands in a fixed slot before the first free one
  (`PutDistinctExactly`, `PutTwice`); its only caller looks the key up first.
- A peer address that cannot be decoded passes the checks of CreatePermission as an IPv4 address, and the permission
  made for it, with a timer, is one that no lookup finds: a request that was granted permits all the addresses it names
  if and only if all could be decoded (`InertPermission`, `AllPermittedExactly`, `HandleCreatePermission`,
  `FieldsPermittedExactly`).
- A STUN header that claims 65516 bytes or more gets a length that has wrapped around (`StunLenExactly`).
- `is_http` is asked before the ChannelData header is looked at. A ChannelData message is cut at the wrong place if and
  only if the stream from it on makes a complete HTTP request that does not end where the message ends
  (`FrameFoundExactly`, `CutStreamExactly`), as on channel 0x4745 with 0x5420 bytes of data that start with a version
  and a blank line (`ChannelCutWrongly`).
- One changed byte before the fingerprint of a message is noticed, unless it is in the header of an attribute and hides
  the fingerprint from the search. What is left is then accepted if it is a Binding message or if no fingerprint is
  asked for, or if another attribute passes for one (`OneByteAcceptedExactly`, `HeaderByteAccepted`).
- `handle_turn_send` has a test for a second address that never applies: the last address counts (`SendAcceptedExactly`,
  `SecondAddressTaken`).
- With padding mandatory, a ChannelData message may be followed by any multiple of four bytes, up to 65534 bytes in all
  (`FollowedAcceptedExactly`).
- A private address does not come back from the public one it is shown as if the lists are not one-to-one, or if it is
  itself an unlisted public address (`MappedBackExactly`, `SecondLost`, `OneToOneMapping`).

## How the model represents the code

- C integers are unbounded numbers with the wrap-around written out where the code can reach it: `kroundup32`, the
  table sizes, the 32-bit clock, the 16-bit lengths of the framing code. Bytes are 8-bit vectors, and so is all bit
  arithmetic of CRC, flags and base64; the load factor 0.77 is `(77 * n + 50) / 100`.
- `hash & (size - 1)` for a power of two is written as a remainder.
- NULL is `None`, or a nullable reference where the source returns a pointer to a record.
- A buffer with its length is an `array` and a number where the source writes to it, and a byte string where the
  source only reads.
- The ghost fields `perms` and `chans` of an allocation are, with its timers, a picture of its records; `Tied` says the
  picture is true, and every method keeps it so.
- A timer may go off at any time after it was set. That there is exactly one for each record, for the right record, is
  proved; when it goes off is not modelled.

## Model

| member | source | states |
|---|---|---|
| Probe.ProbesMeet | coturn/src/server/ns_turn_khash.h:232-237 | two probes s < t of one search look at the same bucket only if 2n divides t - s or t + s + 1 |
| Probe.ProbesDistinct | coturn/src/server/ns_turn_khash.h:232-237 | the first 2^k probes of a search from any start look at pairwise different buckets |
| Probe.ProbesCover | coturn/src/server/ns_turn_khash.h:232-237 | every bucket is looked at by one of the first n probes, for every power of two n and every start |
| Probe.ReturnsToStart | coturn/src/server/ns_turn_khash.h:235-237 | a search is back at its first bucket at step s exactly if 2n divides s or s + 1 |
| Probe.FirstReturn | coturn/src/server/ns_turn_khash.h:235-237 | the first return is at step 2n - 1, so the test `i == last` ends a search only after every bucket has been seen |
| RoundUp.Kroundup32IsNextPow2 | coturn/src/server/ns_turn_khash.h:175-176 | the shift-and-or cascade yields the least power of two not below x, modulo 2^32 |
| RoundUp.Kroundup32Spec | coturn/src/server/ns_turn_khash.h:175-176 | for every 32-bit x: 0 for x == 0 and above 2^31, else a power of two between x and 2x |
| KhashFlags.BothFalseSets | coturn/src/server/ns_turn_khash.h:164-170 | clearing both bits makes exactly bucket i live in the packed words, all other buckets keep their state |
| KhashFlags.EmptyFalseSets | coturn/src/server/ns_turn_khash.h:164-170 | clearing the empty bit of any bucket leaves its deleted bit, and all other buckets keep their state |
| KhashFlags.DelTrueSets | coturn/src/server/ns_turn_khash.h:164-170 | setting the deleted bit of any bucket leaves its empty bit, and all other buckets keep their state |
| KhashFlags.Flags.IsEmpty | coturn/src/server/ns_turn_khash.h:164 | the two-bit field in the packed words says whether the bucket is empty |
| KhashFlags.Flags.IsDel | coturn/src/server/ns_turn_khash.h:165 | the two-bit field says whether the bucket is a tombstone |
| KhashFlags.Flags.IsEither | coturn/src/server/ns_turn_khash.h:166 | the two-bit field says whether the bucket is empty or a tombstone |
| KhashFlags.Flags.SetIsBothFalse | coturn/src/server/ns_turn_khash.h:169 | writes the packed words so that the state of bucket i, and of no other, changes |
| KhashFlags.Flags.SetIsEmptyFalse | coturn/src/server/ns_turn_khash.h:168 | writes the packed words so that an empty bucket i becomes live, any other stays as it is, and no other bucket changes |
| KhashFlags.Flags.SetIsDelTrue | coturn/src/server/ns_turn_khash.h:170 | writes the packed words so that bucket i, unless it is empty, becomes a tombstone, and no other bucket changes |
| KhashFlags.Flags.SetAllEmpty | coturn/src/server/ns_turn_khash.h:221-226 | the byte pattern 0xaa makes every bucket empty |
| KhashTable.SearchIsComplete | coturn/src/server/ns_turn_khash.h:227-242 | a search that meets an empty bucket, or has come full circle, without the key proves the key absent |
| KhashTable.SearchIsSound | coturn/src/server/ns_turn_khash.h:227-242 | a live bucket holds a key of the map, with its value |
| KhashTable.PutKeeps | coturn/src/server/ns_turn_khash.h:367-378 | storing a new key in a free bucket on its search path keeps the table invariant for the larger map |
| KhashTable.DelKeeps | coturn/src/server/ns_turn_khash.h:382-387 | a tombstone keeps every other key reachable |
| KhashTable.LiveSize | coturn/src/server/ns_turn_khash.h:243-327 | as many buckets are live as the map has keys |
| KhashTable.EmptyBucketLeft | coturn/src/server/ns_turn_khash.h:286-293 | while a pair is in hand during the rehash there is an empty new bucket on its path |
| KhashTable.KickKeeps | coturn/src/server/ns_turn_khash.h:286-305 | kicking out the pair in a still live old bucket keeps every pair: placed, in the old table, or in hand |
| KhashTable.DropKeeps | coturn/src/server/ns_turn_khash.h:306-311 | writing the pair in hand into a bucket that is free in both tables keeps every pair |
| KhashTable.DoneMoving | coturn/src/server/ns_turn_khash.h:316-326 | when no old bucket is live any more the new flags describe the same map, with every key reachable and no tombstone |
| KhashTable.LiveSetShrinks | coturn/src/server/ns_turn_khash.h:290-311 | each kick-out takes one bucket out of the set of live old buckets: the measure that ends the chain |
| Khash.KHash.Get | coturn/src/server/ns_turn_khash.h:227-242 | the bucket of the key, or n_buckets exactly if the key is absent; the loop terminates |
| Khash.KHash.FindNewBucket | coturn/src/server/ns_turn_khash.h:287-292 | finds an empty new bucket that is reachable for the key; the loop terminates |
| Khash.KHash.KickOut | coturn/src/server/ns_turn_khash.h:279-313 | one kick-out chain, with termination: all pairs are kept, the bucket it began in is live no more |
| Khash.KHash.RehashAll | coturn/src/server/ns_turn_khash.h:278-315 | after the outer loop no old bucket is live and every pair stands in the new layout |
| Khash.KHash.Rehash | coturn/src/server/ns_turn_khash.h:253-326 | same map, requested size, no tombstones, n_occupied equal to the number of keys |
| Khash.KHash.Resize | coturn/src/server/ns_turn_khash.h:243-327 | for every 32-bit request: the same map, and either a rehash to the legal size or no change when the request is too small |
| Khash.KHash.MakeRoom | coturn/src/server/ns_turn_khash.h:328-340 | nothing is done below the upper bound; at it, the table is rehashed at its size if that is more than twice the number of keys and at the double size if not, up to 2^31; there is a free bucket afterwards unless 2^31 are full, the 32-bit wrap of size << 1 included |
| Khash.KHash.FindSlot | coturn/src/server/ns_turn_khash.h:341-366 | the bucket of a present key, else a free bucket on its path: a tombstone if there is one before the first empty bucket |
| Khash.KHash.StoreKey | coturn/src/server/ns_turn_khash.h:367-380 | the three outcomes of the last part of kh_put, with the new map in each |
| Khash.KHash.Put | coturn/src/server/ns_turn_khash.h:328-381 | a present key is found; an absent one is added; in a full table of 2^31 buckets the bucket of another key is returned |
| Khash.KHash.Del | coturn/src/server/ns_turn_khash.h:382-387 | removes exactly the key in the bucket, and nothing if the bucket is not live |
| Khash.KHash.Clear | coturn/src/server/ns_turn_khash.h:221-226 | the empty map |
| Khash.KHash.SizeBound | coturn/src/server/ns_turn_khash.h:328-387 | the number of keys <= n_occupied <= n_buckets <= 2^31 in every valid table |
| Khash.KHash.RoomStays | coturn/src/server/ns_turn_khash.h:175-381 | in every allocated table some bucket is empty if and only if n_occupied is below n_buckets, which below 2^31 buckets always holds, with n_occupied at most upper_bound |
| Khash.LegalSize | coturn/src/server/ns_turn_khash.h:248-251 | whatever is asked for, the new size is a power of two from 4 to 2^31 and fits the flag words |
| Khash.UpperIs | coturn/src/server/ns_turn_khash.h:192-324 | the upper bound is 0.77 of the buckets, rounded to the nearest whole number |
| UrMap.UrMap.Put | coturn/src/server/ns_turn_maps.c:73-94 | the map with the key set, and true, exactly if the key was there or there are fewer than 2^31 keys; otherwise the key of another entry is lost |
| UrMap.FillUp | coturn/src/server/ns_turn_maps.c:73-94 | a table with 2^31 keys and no empty bucket is reached by puts |
| UrMap.PutTooMany | coturn/src/server/ns_turn_maps.c:73-94 | in that table a put of another key fails and an entry is gone |
| UrMap.UrMap.Get | coturn/src/server/ns_turn_maps.c:96-110 | lookup in the mathematical map |
| UrMap.UrMap.Del | coturn/src/server/ns_turn_maps.c:112-127 | removes the key; the value is handed out exactly if there was one |
| UrMap.UrMap.Size | coturn/src/server/ns_turn_maps.c:159-165 | the cardinality of the map |
| LmMap.PutDistinctExactly | coturn/src/server/ns_turn_maps.c:217-281 | a put keeps keys distinct if and only if the key is absent, or stands in a fixed slot before the first free one |
| LmMap.PutTwice | coturn/src/server/ns_turn_maps.c:217-281 | a concrete bucket: two keys put, the first deleted, the second put again, and the second is there twice |
| LmMap.PutHolds | coturn/src/server/ns_turn_maps.c:217-281 | with the key absent, the bucket afterwards holds the map with the key added |
| LmMap.DelHolds | coturn/src/server/ns_turn_maps.c:320-360 | the bucket afterwards holds the map without the key |
| LmMap.LmMap.Put | coturn/src/server/ns_turn_maps.c:217-281 | the table after a put of any key, present or not; it still stands for a map if and only if the key was absent, or stands in a fixed slot before the first free one, and then the map is the old one with an absent key added |
| LmMap.LmMap.Get | coturn/src/server/ns_turn_maps.c:283-318 | lookup in the mathematical map; key 0 is never found |
| LmMap.LmMap.Del | coturn/src/server/ns_turn_maps.c:320-360 | the map without the key |
| LmMap.LmMap.Visit | coturn/src/server/ns_turn_maps.c:427-456 | visits exactly the values of the map |
| LmMap.LmMap.Clean | coturn/src/server/ns_turn_maps.c:364-396 | the empty map |
| RtcpProtocol.Conservation | coturn/src/server/ns_turn_maps_rtcp.c:112-233 | in every reachable state, for every socket: times reserved equals times returned, closed or dropped plus tokens that hold it |
| RtcpProtocol.OneFate | coturn/src/server/ns_turn_maps_rtcp.c:112-233 | if no token is put while present and no put meets a full table, a socket reserved once is held by one token, or was returned once, or was closed once, exactly one of these |
| RtcpProtocol.ReusedTokenLeaks | coturn/src/server/ns_turn_maps_rtcp.c:189-210 | a concrete run in which a second put of a present token leaks the first socket |
| RtcpProtocol.DroppedExactly | coturn/src/server/ns_turn_maps_rtcp.c:189-210 | over every run, a socket is leaked if and only if some step was a put over a token whose present entry held it, or a put into a full table that took the entry that held it |
| RtcpProtocol.OneFateExactly | coturn/src/server/ns_turn_maps_rtcp.c:112-233 | over every run, a socket reserved once is held by one token, or was returned once, or was closed once, exactly one of these, if and only if no step leaked it |
| RtcpProtocol.ExpiredExactly | coturn/src/server/ns_turn_maps_rtcp.c:68-82 | an entry put at one moment and looked at in another is taken for expired if and only if the seconds since its 300 are over, modulo 2^32, are between 1 and 2^31 |
| RtcpProtocol.ExpiredInTime | coturn/src/server/ns_turn_maps_rtcp.c:68-82 | for 2^31 seconds after that this is so exactly if more than 300 seconds have passed since the put |
| RtcpProtocol.ExpiredTooLate | coturn/src/server/ns_turn_maps_rtcp.c:68-82 | the exact moments at which the 32-bit clock tells otherwise, and the first of them |
| RtcpProtocol.RunRight | coturn/src/server/ns_turn_maps_rtcp.c:130-156 | between scan and deletions, entries not put again since are on the list exactly as they were expired at the scan |
| RtcpProtocol.EntryPut | coturn/src/server/ns_turn_maps_rtcp.c:189-210 | in every run an entry holds the socket of the last put of its token, and expires 300 seconds after it |
| RtcpProtocol.ExpiryCloses | coturn/src/server/ns_turn_maps_rtcp.c:130-156 | a deletion closes a socket that was expired when the handler scanned, or one whose token was put again since |
| RtcpProtocol.ExpiryFinishes | coturn/src/server/ns_turn_maps_rtcp.c:130-156 | a handler whose array did not fill leaves nothing behind that was expired at its scan |
| RtcpProtocol.FinishedInTime | coturn/src/server/ns_turn_maps_rtcp.c:130-156 | in every run a handler whose array did not fill leaves no entry behind that was put more than 300 seconds before its scan and not again |
| RtcpProtocol.OnlyExpiredClosed | coturn/src/server/ns_turn_maps_rtcp.c:130-156 | if tokens never repeat, under every interleaving the expiry handler closes only expired sockets |
| RtcpProtocol.ClosedInTime | coturn/src/server/ns_turn_maps_rtcp.c:130-156 | in every run whose tokens do not repeat the handler closes only sockets that were reserved more than 300 seconds before its scan |
| RtcpProtocol.LiveClosedExactly | coturn/src/server/ns_turn_maps_rtcp.c:130-156 | with a steady clock, a socket that was not expired is closed exactly if its token was put again between scan and deletion |
| RtcpProtocol.ReusedTokenCloses | coturn/src/server/ns_turn_maps_rtcp.c:147-154 | a concrete run with a steady clock in which the handler closes a socket reserved after its scan, 300 seconds before it expires |
| RtcpMap.RtcpMap.Reserve | coturn/src/server/ns_turn_maps_rtcp.c:189-210 | is the put step of the protocol, with its moment, or the failing put of a full table |
| RtcpMap.RtcpMap.Fetch | coturn/src/server/ns_turn_maps_rtcp.c:217-233 | is the get step: the entry goes, the socket stays open and is returned |
| RtcpMap.RtcpMap.CollectExpired | coturn/src/server/ns_turn_maps_rtcp.c:68-82 | the array lists the tokens put more than 300 seconds ago, each once, and all of them unless it holds 1024 |
| RtcpMap.RtcpMap.ScanExpired | coturn/src/server/ns_turn_maps_rtcp.c:140-150 | is the scan step of the protocol, and lists the tokens put more than 300 seconds ago |
| RtcpMap.RtcpMap.Expire | coturn/src/server/ns_turn_maps_rtcp.c:112-121 | is one deletion step of the protocol |
| RtcpMap.RtcpMap.TimeoutHandler | coturn/src/server/ns_turn_maps_rtcp.c:130-156 | run without interruption: removes only entries put more than 300 seconds ago, all of them if fewer than 1024, and the sockets closed are those of the removed entries, one each |
| IoaAddr.SameIpSameIndex | coturn/src/client/ns_turn_ioaddr.c:135-149 | addresses with equal IP fall into the same bucket of the permission table, whatever their ports |
| IoaAddr.AddrAnyIs | coturn/src/client/ns_turn_ioaddr.c:62-84 | the addresses taken for none: without a family, 0.0.0.0 or :: with port 0 |
| TurnSpec.StepSafe | coturn/src/server/ns_turn_allocation.c:180-354 | every event keeps: channels only to permitted addresses, valid numbers, no peer on two numbers |
| TurnSpec.RunSafe | coturn/src/server/ns_turn_allocation.c:180-354 | in every state of every run of events: channels only to permitted addresses, valid numbers, no peer on two numbers |
| TurnSpec.JustBound | coturn/src/server/ns_turn_server.c:2658-2707 | right after a binding, in any run, the number leads to the peer, and data of the peer arrives on the number and in no other way |
| TurnSpec.PermittedExactly | coturn/src/server/ns_turn_server.c:2690-2694 | over every run an address is permitted exactly while a grant by ChannelBind or CreatePermission stands |
| TurnSpec.RelayedOnlyIfGranted | coturn/src/server/ns_turn_server.c:4813-4818 | peer data is relayed exactly if such a grant stands |
| TurnSpec.ChannelExactly | coturn/src/server/ns_turn_server.c:2658-2707 | over every run a number stands for a peer exactly since it was bound to it and neither channel nor permission has ended |
| TurnSpec.GrantedWasGood | coturn/src/server/ns_turn_server.c:2690-2694 | in every state of every run whose grants were of allowed peers, each permitted address and each bound peer was allowed when it was granted |
| TurnGraph.TimersOneToOne | coturn/src/server/ns_turn_server.c:840-942 | between events each allocated record has exactly one live timer, no timer targets a free record |
| TurnGraph.IndexesInverse | coturn/src/server/ns_turn_allocation.c:346-382 | the channel found for a number has this peer exactly if the channel found for the peer has this number |
| TurnGraph.OneRecord | coturn/src/server/ns_turn_allocation.c:346-382 | a number stands for a peer if and only if the lookup by number and the lookup by peer address and port lead to one record |
| TurnGraph.MeansSafe | coturn/src/server/ns_turn_allocation.c:180-382 | every record graph that keeps the invariant stands for a safe state |
| TurnGraph.CleanPermMeans | coturn/src/server/ns_turn_allocation.c:180-198 | when a permission ends, exactly its address stops being permitted and exactly the channels to that address go |
| TurnGraph.OwnedByAddress | coturn/src/server/ns_turn_allocation.c:180-198 | the channels a permission owns are the channels to its IP address |
| TurnGraph.NothingLeft | coturn/src/server/ns_turn_allocation.c:86-90 | with no permission allocated there is no channel and no timer |
| TurnGraph.AddChanKeeps | coturn/src/server/ns_turn_allocation.c:325-344 | hanging a new channel under its permission keeps links, uniqueness and timers |
| TurnGraph.DropChanKeeps | coturn/src/server/ns_turn_allocation.c:303-323 | deleting a channel keeps links, uniqueness and timers of all other records |
| TurnGraph.CleanPermKeeps | coturn/src/server/ns_turn_allocation.c:180-198 | cleaning a permission with its channels keeps links, uniqueness and timers of all other records |
| TurnGraph.AddPermKeeps | coturn/src/server/ns_turn_allocation.c:386-448 | adding a permission for an address that has none keeps links, uniqueness and timers |
| TurnGraph.SetPermTimerKeeps | coturn/src/server/ns_turn_server.c:882-913 | replacing the timer of a permission keeps every live timer the timer of the record it is for |
| TurnGraph.SetChanTimerKeeps | coturn/src/server/ns_turn_server.c:915-942 | replacing the timer of a channel keeps every live timer the timer of the record it is for |
| TurnGraph.AddChanMeans | coturn/src/server/ns_turn_allocation.c:325-344 | after a channel is added its number stands for the peer, and all other numbers for what they stood for |
| TurnGraph.DropChanMeans | coturn/src/server/ns_turn_allocation.c:303-323 | after a channel is deleted exactly its number stands for no peer |
| TurnGraph.AddPermMeans | coturn/src/server/ns_turn_allocation.c:386-448 | after a permission is added its address is permitted, if it has a family, and no other becomes so |
| Allocation.Allocation.constructor | coturn/src/server/ns_turn_allocation.c:47-54 | a valid allocation without permissions, channels or timers |
| Allocation.Allocation.GetPermission | coturn/src/server/ns_turn_allocation.c:243-274 | the permission of the IP, or none exactly if none is allocated for it |
| Allocation.Allocation.GetChannel | coturn/src/server/ns_turn_allocation.c:450-484 | the channel of the number, or none exactly if none is allocated for it |
| Allocation.Allocation.GetChannelByPeer | coturn/src/server/ns_turn_allocation.c:348-382 | the channel of the peer, or none exactly if there is none |
| Allocation.Allocation.FreePerm | coturn/src/server/ns_turn_allocation.c:396-436 | a free record in the right bucket, one appended only if none is free |
| Allocation.Allocation.FreeChan | coturn/src/server/ns_turn_allocation.c:450-503 | a free channel record in the right bucket, one appended only if none is free |
| Allocation.Allocation.AddPermission | coturn/src/server/ns_turn_allocation.c:386-448 | exactly the record graph with the permission added |
| Allocation.Allocation.NewChannel | coturn/src/server/ns_turn_allocation.c:325-344 | the state after binding number and peer, all invariants kept |
| Allocation.Allocation.UpdateChannelLifetime | coturn/src/server/ns_turn_server.c:915-942 | the timers of the channel and of its permission, and no others, are replaced by new ones set for the given time, and both expiry times set |
| Allocation.Allocation.UpdatePermissionLifetime | coturn/src/server/ns_turn_server.c:882-913 | the timer of the permission, and no other, is replaced by one set for the given time, and its expiry time set |
| Allocation.Allocation.UpdatePermission | coturn/src/server/ns_turn_server.c:3047-3077 | a permission for the address, or one without an address, has a timer set now, for the permission lifetime if the address comes without a port; permissions in use for other addresses are as they were, timers included |
| Allocation.Allocation.RenewPermission | coturn/src/server/ns_turn_server.c:3060-3077 | exactly the timer of the permission is replaced, by one set for the permission lifetime, or for that of the channel if the address with its port has one; every other permission record is as it was |
| Allocation.Allocation.CleanPermission | coturn/src/server/ns_turn_allocation.c:180-198 | the permission, its channels and all their timers go, and nothing else does |
| Allocation.Allocation.DeleteChannel | coturn/src/server/ns_turn_allocation.c:303-323 | the channel, its entry in the port table and its timer go, and nothing else does |
| Allocation.Allocation.FreePermissions | coturn/src/server/ns_turn_allocation.c:206-241 | no permission is left |
| Allocation.Allocation.CleanChannelTable | coturn/src/server/ns_turn_allocation.c:505-538 | changes nothing when no channel is allocated, which is how clear_allocation calls it |
| Allocation.Allocation.Clear | coturn/src/server/ns_turn_allocation.c:56-93 | no permission, no channel, no timer; the empty state |
| TurnServer.ReadBind | coturn/src/server/ns_turn_server.c:2593-2645 | the loop over the attributes finds what the declarative reading of the request says, in order, up to the first error |
| TurnServer.ReadAnswer | coturn/src/server/ns_turn_server.c:2595-2658 | what was read decides the answer the specification of the request asks for |
| TurnServer.BindRequestUnique | coturn/src/server/ns_turn_server.c:2593-2664 | a request asks for at most one number and peer, a valid number and a peer with a port |
| TurnServer.BindAcceptedExactly | coturn/src/server/ns_turn_server.c:2576-2742 | a ChannelBind request is accepted if and only if it is well-formed, number and peer can be bound together, and a new binding is to an allowed address |
| TurnServer.BindErrorExactly | coturn/src/server/ns_turn_server.c:2593-2718 | the error code of every ChannelBind request: 420, 400 or 443 by the first attribute with a flaw, 443 for a peer of a family without a relay socket; without a flaw 400, 403 or 0 by the number, the last peer, the state and the allowed addresses |
| TurnServer.Session.HandleChannelBind | coturn/src/server/ns_turn_server.c:2576-2742 | the error code for every request; if accepted, the binding, a relay socket of the family of the peer, and both timers renewed for the channel lifetime; no record, timer or permission changed if not |
| TurnServer.Session.BindChannel | coturn/src/server/ns_turn_server.c:2666-2718 | accepts and refuses exactly as the abstract state says; the 500 branches are never taken |
| TurnServer.ReadPermit | coturn/src/server/ns_turn_server.c:3095-3132 | the first attribute that is unknown or bad decides the error code |
| TurnServer.PermitErrorExactly | coturn/src/server/ns_turn_server.c:3095-3150 | the error code of every CreatePermission request: 420, 443 or 403 by the first attribute with a flaw; without one 0, or 400 if there is no address |
| TurnServer.PermitAccepted | coturn/src/server/ns_turn_server.c:3111-3123 | each address of an accepted request is allowed and has a relay socket of its family; one that cannot be decoded needs an IPv4 one |
| TurnServer.Session.HandleCreatePermission | coturn/src/server/ns_turn_server.c:3079-3193 | all or nothing: accepted, every address named is allowed and has a relay socket, a permission for it gets a new timer for the permission lifetime, the lookup finds exactly the addresses that could be decoded, and permissions for other addresses are as they were; refused, nothing changes |
| TurnServer.Session.GrantAll | coturn/src/server/ns_turn_server.c:3148-3182 | the second pass permits the decodable addresses, renews a permission for each address named for the permission lifetime, and leaves permissions for other addresses as they were |
| TurnServer.Session.OnlyGood | coturn/src/server/ns_turn_server.c:2690-2694 | in every state of a session each permitted address and each bound peer was allowed when that was granted |
| TurnServer.InertPermission | coturn/src/server/ns_turn_server.c:3104-3110 | an undecodable peer address passes the checks and the permission made for it permits nothing |
| TurnServer.AllPermittedExactly | coturn/src/server/ns_turn_server.c:3079-3182 | in the records after the request was granted, the lookup of the data path finds each named address exactly if it could be decoded, so all are permitted if and only if all could be decoded |
| TurnServer.Session.OnTimer | coturn/src/server/ns_turn_server.c:840-878 | a timer that goes off ends exactly the permission or channel it was set for, and is gone |
| TurnServer.Session.WriteToPeerChannel | coturn/src/server/ns_turn_server.c:4074-4115 | client data goes to the peer whose binding to the number stands in the history of the session, one that was allowed, else nowhere |
| TurnServer.Session.PeerInput | coturn/src/server/ns_turn_server.c:4807-4837 | peer data arrives on the channel bound to the peer, as an indication, or not at all; without server relay only if a grant stands in the history, and only from addresses that were allowed |
| TurnServer.ReadSend | coturn/src/server/ns_turn_server.c:2960-3001 | the loop over the attributes finds the last address, whether there is data, and the unknown attributes, up to the second DATA attribute |
| TurnServer.SendAcceptedExactly | coturn/src/server/ns_turn_server.c:2960-3041 | a Send indication gets no error if and only if nothing is unknown, there is exactly one DATA attribute, and the last address is decodable and not all zero |
| TurnServer.SendRefusedExactly | coturn/src/server/ns_turn_server.c:2960-3041 | which of 420 and 400 a refused Send indication gets |
| TurnServer.SecondAddressTaken | coturn/src/server/ns_turn_server.c:2973-2981 | concrete indications with two addresses, of which the second counts |
| TurnServer.Session.BothDirections | coturn/src/server/ns_turn_server.c:4074-4837 | what the client sends on a number goes to a peer exactly if what the peer sends arrives on that number, and exactly if both lookups lead to one record |
| TurnServer.Session.SendIndication | coturn/src/server/ns_turn_server.c:2940-3045 | the error code of every indication, and where its data goes: to the last address if that is permitted or server relay is on, else nowhere; nothing on a TCP relay |
| TurnServer.Session.Clear | coturn/src/server/ns_turn_allocation.c:56-93 | the session history ends with the empty state |
| StunMsg.WalkInside | coturn/src/client/ns_turn_msg.c:1445-1493 | over any bytes, first and next return attributes wholly inside the message, each behind the one before |
| StunMsg.Walk | coturn/src/client/ns_turn_msg.c:1466-1493 | the walk terminates on any bytes, its attributes do not overlap and are in order |
| StunMsg.FindType | coturn/src/client/ns_turn_msg.c:1433-1443 | the first position with the type, or none exactly if no position has it |
| StunMsg.GetFirstByType | coturn/src/client/ns_turn_msg.c:1433-1443 | the C loop returns that position |
| StunBuild.AddAttr | coturn/src/client/ns_turn_msg.c:1495-1534 | accepted exactly if the padded message stays below 65507 bytes; then exactly the message with the attribute appended, else the buffer is unchanged |
| StunBuild.AddedAttrs | coturn/src/client/ns_turn_msg.c:1495-1534 | an attribute added to a well-formed message is the last of the walk, the others are as before |
| StunBuild.BuildAttrs | coturn/src/client/ns_turn_msg.c:1466-1534 | any list of attributes that fits, put into a fresh header, is what the walk returns |
| Crc.TableIsEight | coturn/src/client/ns_turn_msg.c:1702-1731 | each of the 256 table entries is eight bit-serial steps on its index |
| Crc.UpdateFeeds | coturn/src/client/ns_turn_msg.c:1700 | one table lookup takes in the eight bits of a byte, lowest first |
| Crc.NsCrc32 | coturn/src/client/ns_turn_msg.c:1733-1739 | the table-driven loop computes the bit-serial reflected CRC-32 (0xEDB88320) of every byte string |
| Crc.Residue | coturn/src/client/ns_turn_msg.c:1733-1739 | any message followed by its own check sum, lowest byte first, leaves the remainder 0xDEBB20E3 |
| Crc.SmallSums | coturn/src/client/ns_turn_msg.c:1733-1739 | the check sums of no byte and of one zero byte |
| Crc.CrcDetects | coturn/src/client/ns_turn_msg.c:1733-1739 | changing any one byte of a message changes its CRC |
| StunAuth.AddIntegrity | coturn/src/client/ns_turn_msg.c:1808-1839 | the message with the attribute, its last bytes the hash over all before the attribute; for lengths that are a multiple of four this is the message with its hash; nothing changed if it does not fit |
| StunAuth.IntegrityBytes | coturn/src/client/ns_turn_msg.c:1808-1839 | the bytes of a signed message: 00 08 00 and the size of the hash, then the hash of all before the attribute, with a length field that counts it |
| StunAuth.CheckIntegrity | coturn/src/client/ns_turn_msg.c:1883-1967 | its answer for every buffer, and every byte of the buffer as before on every outcome |
| StunAuth.IntegrityExactly | coturn/src/client/ns_turn_msg.c:1808-1967 | the check of a freshly signed message succeeds exactly if both keys give the same hash |
| StunAuth.LaterAttrs | coturn/src/client/ns_turn_msg.c:1883-1967 | attributes added after MESSAGE-INTEGRITY do not change the answer |
| StunAuth.SignedAccepted | coturn/src/client/ns_turn_msg.c:1808-1967 | a signed message with any attributes added later verifies under the same key |
| StunAuth.AddFingerprint | coturn/src/client/ns_turn_msg.c:1686-1694 | the message with the attribute, its last four bytes the fingerprint of all but the last eight; for lengths that are a multiple of four this is the message with its fingerprint; nothing changed if it does not fit |
| StunAuth.FingerprintBytes | coturn/src/client/ns_turn_msg.c:1686-1694 | the bytes of a message with a fingerprint: 80 28 00 04, then the CRC-32 of all before it XORed with the letters STUN |
| StunAuth.FullCheck | coturn/src/client/ns_turn_msg.c:487-515 | its answer for every buffer, and what it leaves in fingerprint_present |
| StunAuth.AcceptedForm | coturn/src/client/ns_turn_msg.c:446-515 | what is accepted begins with two zero bits, has the magic cookie, and a length that is right and a multiple of four |
| StunAuth.OneByteAcceptedExactly | coturn/src/client/ns_turn_msg.c:487-515 | for any one byte changed before the fingerprint of an accepted message: it is still accepted if and only if the byte is in the header of an attribute, and no fingerprint is found any more where the method is Binding or none is asked for, or another attribute is found as a fingerprint and is right |
| StunAuth.PrintedAccepted | coturn/src/client/ns_turn_msg.c:487-515 | a well-formed message given a fingerprint is accepted, and its attributes are the old ones and the fingerprint |
| StunAuth.SignedAndPrinted | coturn/src/client/ns_turn_msg.c:1808-1839 | integrity then fingerprint: both checks succeed |
| StunAuth.OneByteRefused | coturn/src/client/ns_turn_msg.c:487-515 | the part of this that can be seen before the change: a byte outside the headers of attributes always makes the message refused |
| StunAuth.SealBroken | coturn/src/client/ns_turn_msg.c:487-515 | changing any one byte before the fingerprint, attribute headers included, makes it refused if the fingerprint is still found in its place |
| StunAuth.HeaderByteAccepted | coturn/src/client/ns_turn_msg.c:487-515 | a concrete message with a fingerprint that is still accepted after one changed byte in the header of an attribute, which now takes in the fingerprint |
| StunHeader.MethodBack | coturn/src/client/ns_turn_msg.c:422-435 | every twelve-bit method comes back from its type, whatever the class bits |
| StunHeader.TypeSplits | coturn/src/client/ns_turn_msg.c:422-435 | every type is its method and its class bits |
| StunHeader.TypeBits | coturn/src/client/ns_turn_msg.c:422-435 | the bits of a method go below, between and above the two class bits of its type |
| StunHeader.FreshHeader | coturn/src/client/ns_turn_msg.c:650-657 | the twenty bytes of a fresh header: the lower fourteen bits of the type, highest byte first, length 0, the cookie, the transaction id; a complete command message |
| StunHeader.MethodRead | coturn/src/client/ns_turn_msg.c:422-435 | a receiver of the type of a method and a class reads that method and that class |
| StunHeader.MessageRoundTrip | coturn/src/client/ns_turn_msg.c:487-515 | for every type, transaction id and attribute list that fits: built, signed and fingerprinted, the message has that type, the cookie and that id, both checks accept it and the walk returns the list and the two attributes |
| StunHeader.NotSigned | coturn/src/client/ns_turn_msg.c:1883-1967 | the check answers -1 for a message that was not signed, and for one that was signed with a hash of another size |
| Framing.InitChannelMessage | coturn/src/client/ns_turn_msg.c:802-818 | the header and the padded length for every length, refused exactly if negative or above 65507 with the header |
| Http.IsHeadOf | coturn/src/client/ns_turn_msg.c:875-888 | true exactly if the needle stands at that place, letter by letter, case ignored if asked for |
| Http.FindStr | coturn/src/client/ns_turn_msg.c:890-908 | the first place at which the needle stands, or none exactly if it stands nowhere |
| Http.SameLetters | coturn/src/client/ns_turn_msg.c:875-888 | upper and lower case of the 26 letters are the same when case is ignored, and no other bytes |
| Http.IsHttp | coturn/src/client/ns_turn_msg.c:910-937 | the length the specification gives, for all bytes |
| Http.HttpExactly | coturn/src/client/ns_turn_msg.c:910-937 | the result is positive if and only if a method stands at the front, a version somewhere behind it and a blank line behind that; then it is at least 14 |
| Http.MethodIs | coturn/src/client/ns_turn_msg.c:910-914 | the methods are GET, POST, DELETE and PUT, each with the blank behind it |
| Http.NumberRead | coturn/src/client/ns_turn_msg.c:924 | a decimal number is read back, behind a blank or a plus, or negated modulo 2^64 behind a minus |
| Http.RequestWithContent | coturn/src/client/ns_turn_msg.c:910-937 | the length of a request is that of its header with the blank line and the number in the first content-length header, if below 0x0FFFFFFF |
| Http.RequestWithoutContent | coturn/src/client/ns_turn_msg.c:910-937 | without such a header it is that of the header with the blank line |
| Framing.FrameFoundExactly | coturn/src/client/ns_turn_msg.c:910-989 | the length of the message at the front of a stream, and what is left without padding, are found, however the stream goes on, if and only if it is STUN, or the bytes do not make a complete HTTP request, or the request ends just where the message does and this has no padding |
| Framing.ChannelCutWrongly | coturn/src/client/ns_turn_msg.c:910-989 | concrete ChannelData messages of 21540 bytes of which the first fourteen are cut off as an HTTP request |
| Framing.PrefixIncomplete | coturn/src/client/ns_turn_msg.c:939-989 | a proper prefix of a message yields -1 if and only if the message is STUN or the prefix does not make a complete HTTP request |
| Framing.CutStreamExactly | coturn/src/client/ns_turn_msg.c:910-989 | a stream of any messages and a part of one is cut into exactly these messages and this part if and only if at no boundary the bytes make a complete HTTP request of another length than the message there |
| Framing.StunLenExactly | coturn/src/client/ns_turn_msg.c:947-953 | the 16-bit sum is the length exactly for length fields below 65516; at 65516 the length found is 0 |
| Framing.FirstByteDecides | coturn/src/client/ns_turn_msg.c:939-989 | of whatever is found at the front of a stream the first byte tells: below 0x40 STUN with its cookie and a length that is a multiple of four, up to 0x7F ChannelData or HTTP, above nothing; and its length and length without padding |
| Framing.CutStream | coturn/src/client/ns_turn_msg.c:939-989 | a condition that can be seen message by message: if no ChannelData header spells the start of a method, the stream is cut right |
| Framing.ChannelDecoded | coturn/src/client/ns_turn_msg.c:820-871 | each piece decodes to its channel number, unpadded length and data |
| Framing.FollowedAcceptedExactly | coturn/src/client/ns_turn_msg.c:820-871 | with padding mandatory a padded message with more bytes behind it is taken for that message if and only if their number is a multiple of four and there are fewer than 65535 in all |
| Framing.ChannelAcceptedExactly | coturn/src/client/ns_turn_msg.c:820-871 | what is taken for ChannelData, for every input, with lengths clipped to 65535 |
| AddrMapping.Mapping.Add | coturn/src/client/ns_turn_ioaddr.c:582-592 | one more pair at the end of the lists |
| AddrMapping.Mapping.ToPrivate | coturn/src/client/ns_turn_ioaddr.c:594-604 | the private address of the first entry with the same public IP, the port kept, else the address itself |
| AddrMapping.Mapping.ToPublic | coturn/src/client/ns_turn_ioaddr.c:606-616 | the public address of the first entry with the same private IP, the port kept, else the address itself |
| AddrMapping.MappedBackExactly | coturn/src/client/ns_turn_ioaddr.c:594-616 | a private address comes back from the one it is shown as if and only if a condition on the two lists holds |
| AddrMapping.SecondLost | coturn/src/client/ns_turn_ioaddr.c:594-616 | with two private addresses behind one public address the second comes back as the first |
| AddrMapping.OneToOneMapping | coturn/src/client/ns_turn_ioaddr.c:594-616 | for a one-to-one list: if and only if it is listed as private, or not listed as public |
| StunAddr.StunAddrEncode | coturn/src/client/ns_turn_msg_addr.c:38-112 | the field, plain or XORed, for IPv4, IPv6 and an address without a family |
| StunAddr.StunAddrDecode | coturn/src/client/ns_turn_msg_addr.c:114-195 | its answer for every field |
| StunAddr.FieldBytes | coturn/src/client/ns_turn_msg_addr.c:38-112 | the bytes of the field: family, port and address, XORed with the cookie and for IPv6 with the transaction id in the three XOR attributes, plain in all others |
| StunAddr.DecodeEncode | coturn/src/client/ns_turn_msg_addr.c:38-195 | decoding an encoded address gives it back |
| StunAddr.EncodeDecode | coturn/src/client/ns_turn_msg_addr.c:38-195 | every field that decodes is the encoding of its address |
| StunAddr.AddAddr | coturn/src/client/ns_turn_msg.c:1536-1565 | the mapped and encoded address as an attribute, or nothing changed |
| StunAddr.GetAddr | coturn/src/client/ns_turn_msg.c:1567-1609 | decoded and mapped address, NoAddr if it cannot be decoded, the default in place of a zero IP |
| StunAddr.StandInExactly | coturn/src/client/ns_turn_msg.c:1567-1609 | the default takes the place of the address that was read, with its port, exactly if that has an all-zero IP and the default has not |
| StunAddr.AddressRoundTripExactly | coturn/src/client/ns_turn_msg.c:1536-1609 | adding an address to a message and reading it back gives it back if and only if the mapping does, for all kinds of attribute |
| Requests.BindMessageSeen | coturn/src/client/ns_turn_msg.c:1140-1167 | a ChannelBind request as the client function builds it, through the address lists of the client, with authentication attributes, begins with 00 09 and is for the server handler a request to bind that number to that peer as the lists of the server show it |
| Requests.SeenByNumber | coturn/src/server/ns_turn_server.c:946-958 | what the handlers make of an attribute, by its number |
| Requests.FieldsPermittedExactly | coturn/src/server/ns_turn_server.c:3079-3193 | the same from the bytes: each address is permitted exactly if its field has the form of an IPv4 or IPv6 address, and all are if and only if all fields have |
| EndToEnd.FromClient | coturn/src/server/ns_turn_server.c:4512-4526 | the first ChannelData message of a stream goes, without header and padding, to the peer of its number, and nowhere on a TCP relay |
| EndToEnd.Forwarded | coturn/src/server/ns_turn_server.c:4807-4837 | data of a peer with a channel becomes a frame from which the client reads the number and the data, and which it finds at the front of its stream unless an HTTP request stands there |
| EndToEnd.AnswerIs | coturn/src/server/ns_turn_server.c:2576-2742 | a request for this number and this peer is accepted if and only if they can be bound together and a new binding is to an allowed address |
| EndToEnd.BindAndExchange | coturn/src/server/ns_turn_server.c:2576-2742 | from bytes to bytes: a ChannelBind message of a client is accepted exactly if the state and the allowed addresses say so; then the data in its next frame, unless an HTTP request stands there, goes to that peer, and data of that peer comes back in a frame with that number and the same bytes |
| Base64.Encode | coturn/src/apps/common/apputils.c:1299-1329 | the encoding of section 4 of RFC 4648, and a final zero |
| Base64.PaddedEncoding | coturn/src/apps/common/apputils.c:1304-1324 | the quads with the last characters overwritten are that encoding, in all three padding cases |
| Base64.Decode | coturn/src/apps/common/apputils.c:1341-1387 | none exactly if the length is not a multiple of four, else the octets of the quads up to the output length |
| Base64.AlphabetIs | coturn/src/apps/common/apputils.c:1293-1297 | the table is A to Z, a to z, 0 to 9, plus and slash, in this order |
| Base64.OthersAreZero | coturn/src/apps/common/apputils.c:1331-1339 | what is not in the alphabet is read as 0 |
| Base64.Vectors | coturn/src/apps/common/apputils.c:1299-1329 | test vectors of section 10 of RFC 4648 |
| Base64.RoundTrip | coturn/src/apps/common/apputils.c:1299-1387 | decoding an encoding gives back the same octets and length, for every non-empty string |

## Left out

- Memory allocation failures: every allocation succeeds.
- Sockets, TLS and DTLS, libevent, kernel channels, logging, Redis, the admin interface, option parsing: I/O and
  configuration, of which the model keeps only whether a relay socket for a family exists.
- HMAC is any function with results of the right size, and the key derivation, SASLprep and OAuth tokens are not
  modelled: cryptography.
- The authentication dialogue, realms, quotas and bandwidth: `good_peer_addr` is any predicate on addresses.
- Allocate, Refresh, mobility and TCP relaying beyond the flag that allocates a session: they need relay code that is
  not part of this model.
- The TTL test of `write_to_peerchannel`, DF and TOS handling, and the Data indication built around peer data. Of a Send
  indication the model says where its data goes, not how the DATA attribute is cut out of the packet.
- When timers go off: it is recorded for when each was set, not compared. A CreatePermission sets the permission
  lifetime even on a permission with longer lived channels, so only the structure (no channel without its permission)
  is proved.
- `addr_less_eq` and address ranges, `ur_string_map`, `ur_addr_map`, the unsent buffer queue: easier variants of what
  is here.
- How evenly the hash functions spread: the tables are proved for every hash function.
- Half-empty slots of `lm_map` (a key without a value or a missing overflow pointer): no sequence of calls makes one,
  as values put are never NULL.
- Memory behind the buffer: `strtoul` in `is_http` may read on there, in the model a number ends where the buffer ends.
  The length `is_http` returns is unbounded, as buffers are far below 2^30 bytes.
- StunBuild.AddAttr: not for a buffer whose header claims more than the buffer holds; the C function then writes
  before the buffer. A NULL value is an empty one here.
- StunAddr.AddAddr: the same.
- StunAuth.AddIntegrity: the same. The round trips are about messages whose length is a multiple of four, as section 6
  of RFC 5389 demands.
- StunAuth.AddFingerprint: the same.
- The short-term credential helper with its inverted test at line 1872 of ns_turn_msg.c: not used by the server.
- RtcpMap.RtcpMap.TimeoutHandler: the contract is for a run of the handler that no other thread interrupts; what holds
  under interruption is stated about the protocol.
- KhashFlags.Flags.SetIsDelTrue: not for empty buckets, which would get both bits; its callers pass live ones. What the
  bits become in any case is in `DelTrueSets`.
- Allocation.Allocation.NewChannel: for valid numbers and peers with a port, which is what its only caller has checked.
- Khash.KHash.Resize: new key and value arrays are filled by copying where krealloc may extend them in place.
- `base64_decode` of the empty string: it reads before the start of its input, so `Base64.Decode` asks for a
  non-empty one; characters are taken as ASCII codes.
