# Wire codec, shared store, HAL accounting and contract cores

A Dafny model of the parts of this repository where state, arithmetic and layout interact, with
the properties they have in every input, every run or every reachable state. Check it with
`dafny verify dfyconfig.toml`.

## What is modelled

**Protobuf codec of the hal module** (`Words`, `Varint`, `Wire`, `Fields`, `Records`, `Layout`, `Tickets`,
`Params`, `RedeemRequests`). Integers are unbounded in Dafny, so shifts, truncation, bitwise "or" and
the wrap-around of Go's 64-bit `int` are written out in `Words`. `Varint` has the shift loops as they
are, or-ing digits into a word, against the number the digits spell. `Wire` has one decoder, `Decode`,
for any message type: a schema says which field numbers a switch knows and what each case does to the
message. It is a total function on bytes and also says what is left in the message when an error
stops the loop. Each generated `Unmarshal` is a method on a mutable message, proved equal to `Decode`
for its schema; each marshaller writes backwards into an array. `Records` is the grammar of the format,
groups nested to any depth, tags and lengths in any complete spelling. The main results: the skipper
and every decoder accept exactly the words of that grammar which the schema takes, and such a word has
one reading only; decoding is a homomorphism, decoding undoes marshalling, records of unknown numbers
are stepped over, and later fields win. `Layout` says without the writers what they have to write, and
that it leaves no choice of a single byte. Strings are byte sequences. The format is that of the Protocol
Buffers Encoding specification, sections "Base 128 Varints", "Message Structure", "Length-Delimited
Records", "Groups" and "Last One Wins".

**The keeper's store** (`ByteOrder`, `Store`). One map from bytes to bytes holds tickets, their
counter, params and redeem requests; `Represents` relates it to a typed state exactly. Every operation
commutes with that relation, until the ticket id whose key bytes spell the counter's own key. The
reader that decodes every value as a redeem request is described exactly: which values of other
kinds it lets through, and what it returns, in every state.

**Minting, redeeming, block start and block end** (`MapSum`, `Hal`, `HalStore`). A bank of any
denominations, the two pools, users who may also send to each other and to the pools and receive new
collateral. A ledger of amounts is kept beside the state; the invariant ties the two together in every
reachable state, and the accounting identity, full backing, coverage of pending requests and the exact
effect of the payout follow. It is stated exactly which runs go on: the check at a block start and the
payout at a block end can both stop the chain. A redeem is followed through any later run to its
payment. `HalStore` keeps the requests as bytes in the keeper's store, beside tickets and params, and
shows every run there to be the run on typed requests in which a block end also visits the values of
other kinds that pass for requests.

**NEAR event registry** (`Registry`). Maps and sets flattened into prefixed keys; the flat contract
refines the events that exist and the marks left for accounts, in a build with overflow checks and in
one without, and `check_user_registered` is characterised by the history of calls.

**Smaller cores.** The factory's pair keys and paged walk over them (`Pairs`), the Solana level-up loop
(`LevelUp`), NEAR staking with saturating arithmetic (`Staking`), the club token (`Club`).

## Assumptions

- Go's `int` has 64 bits, and a slice is no longer than the largest `int`. A message is marshalled only
  if its size fits.
- Coin, Duration and Timestamp codecs come from outside the repository. They are parameters
  (`SubCodec`); a round trip of a message assumes it of the nested values it holds.
- HAL and collateral are different denominations and params stay fixed during a run. Only the modelled
  steps, transfers to the pools among them, touch the pools or mint HAL. Wall-clock and block time are inputs; so is the verdict of the
  address parser and of the bank's denomination check.
- A handler's error or panic reverts the transaction; a panic at the start or end of a block stops
  the chain. A send or burn with too little funds fails without effect.
- near-sdk stores a collection's element under the collection's prefix followed by the Borsh bytes of
  the key. The manifests of the NEAR crates ask for overflow checks in a profile, which Cargo reads from
  the workspace's manifest only, and that has none: the one increment this concerns, of the event
  index, is modelled both ways. The Solana crate asks for none, so its u32 arithmetic wraps.

## Where the code and its comments differ

The model follows the code.

- `calc_range_start` is commented as giving the first key after the provided one; it gives a bound that
  passes over keys continuing the provided key with a byte 0, and the key continued by exactly a byte 1
  (`Pairs.ShadowedShape`).
- `make_event_offline` clears a flag on a copy, so an event that exists is live
  (`Registry.AssociatedContract.TakeOffline`).
- The block-start check is commented as taking two units of collateral for one HAL and dividing; it
  multiplies. It counts both pools and fails whenever the supply is below twice their sum, so with
  every deposit made it passes only while there is no HAL, or the redeem pool is empty, no odd amount
  was redeemed and no collateral was given to the pool (`Hal.CheckPassesIff`, `Hal.CheckFails`).
- A redeem of 1 HAL is accepted and stores a request for nothing, whose payout panics
  (`Hal.EndBlockFails`).
- The transfer of a redeem is commented as burning the user's HAL; if the user lacks it, its error goes
  unseen and HAL that others sent to the pool is burnt (`Hal.RedeemDebitsCreator`, `Hal.RedeemOfGift`).
- `MaxRedeemEntries` is stored but limits nothing: a second redeem of an account replaces its pending
  request, and the ledger counts what is lost that way.

## Model

| member | source | states |
|---|---|---|
| `Varint.SovIsLength` | HalbornCTF_Golang_Cosmos/x/hal/types/tickets.pb.go:199-201 | the size formula on the bit length equals the number of bytes of the varint, for every number |
| `Varint.EncodeAtMostTen` | HalbornCTF_Golang_Cosmos/x/hal/types/tickets.pb.go:164-174 | no uint64 takes more than ten bytes |
| `Varint.WriteVarint` | HalbornCTF_Golang_Cosmos/x/hal/types/tickets.pb.go:164-174 | the varint ends just before the offset, starts at the returned base, and no other byte of the buffer changes |
| `Varint.ReadBack` | HalbornCTF_Golang_Cosmos/x/hal/types/tickets.pb.go:238-252 | every uint64 is read back from its encoding, whatever bytes follow, using exactly those bytes |
| `Varint.WordIsValue` | HalbornCTF_Golang_Cosmos/x/hal/types/tickets.pb.go:220 | or-ing shifted digits into a word of any width gives the number the digits spell, cut to that width |
| `Varint.ReadVarint` | HalbornCTF_Golang_Cosmos/x/hal/types/tickets.pb.go:211-224 | on every input the loop stops within ten bytes, never indexes outside, and returns the digits, the index and the overflow or end-of-input error the specification gives |
| `Varint.ReadUint32` | HalbornCTF_Golang_Cosmos/x/hal/types/params.pb.go:660-673 | the 32-bit loop returns the number read modulo 2^32 |
| `Wire.SkipBody` | HalbornCTF_Golang_Cosmos/x/hal/types/tickets.pb.go:391-438 | each wire type moves the index and the nesting depth as specified, with the addition wrapping in 64 bits |
| `Wire.SkipField` | HalbornCTF_Golang_Cosmos/x/hal/types/tickets.pb.go:370-447 | terminates on every byte string and equals the recursive specification, wrapped indexes being caught as negative |
| `Wire.DecodeConcat` | HalbornCTF_Golang_Cosmos/x/hal/types/tickets.pb.go:205-369 | if x decodes without error, decoding x followed by y is decoding y, at its place, on top of x's result; for every message type |
| `Wire.DecodeMoved` | HalbornCTF_Golang_Cosmos/x/hal/types/tickets.pb.go:257-263 | where bytes sit in the buffer never changes the message, and can only turn one truncation error into the other |
| `Wire.DecodeAppend` | HalbornCTF_Golang_Cosmos/x/hal/types/tickets.pb.go:205-369 | concatenation is decoding in sequence from the start of a buffer |
| `Fields.ReadTag` | HalbornCTF_Golang_Cosmos/x/hal/types/tickets.pb.go:209-232 | the head of the field loop: tag errors, and what remains to be read for a known or unknown number |
| `Fields.ReadSlice` | HalbornCTF_Golang_Cosmos/x/hal/types/tickets.pb.go:238-265 | a counted field yields exactly the bytes after its length, and every negative, wrapped or too long length is an error |
| `Fields.SkipUnknown` | HalbornCTF_Golang_Cosmos/x/hal/types/tickets.pb.go:349-361 | an unknown field is stepped over or rejected as specified, without leaving the buffer |
| `Fields.WriteCounted` | HalbornCTF_Golang_Cosmos/x/hal/types/tickets.pb.go:135-141 | contents, length and tag are put directly before the bytes already written, and nothing below them changes |
| `Fields.WriteNumber` | HalbornCTF_Golang_Cosmos/x/hal/types/tickets.pb.go:142-146 | the same for a number and its tag |
| `Fields.SizesAreLengths` | HalbornCTF_Golang_Cosmos/x/hal/types/tickets.pb.go:181-195 | the size of a field is the length of what is written for it |
| `Fields.DecodeCounted` | HalbornCTF_Golang_Cosmos/x/hal/types/tickets.pb.go:234-265 | decoding a written counted field, whatever follows, hands its bytes to the message and goes on behind it |
| `Fields.DecodeNumber` | HalbornCTF_Golang_Cosmos/x/hal/types/tickets.pb.go:298-316 | the same for a number below 2^64 |
| `Fields.DecodeWrongType` | HalbornCTF_Golang_Cosmos/x/hal/types/tickets.pb.go:299-301 | a known number with the wrong wire type stops the decoder before the message changes |
| `Records.SkipOne` | HalbornCTF_Golang_Cosmos/x/hal/types/tickets.pb.go:370-447 | the skipper returns exactly the length of any well-formed record, groups nested to any depth; inside a group it goes on behind it |
| `Records.SkipIff` | HalbornCTF_Golang_Cosmos/x/hal/types/tickets.pb.go:370-447 | it succeeds within the buffer on a prefix if and only if that prefix is a record |
| `Records.DecodeRecord` | HalbornCTF_Golang_Cosmos/x/hal/types/tickets.pb.go:208-361 | decoding a record and what follows is taking the record by the schema, or failing, and then decoding what follows |
| `Records.DecodeIff` | HalbornCTF_Golang_Cosmos/x/hal/types/tickets.pb.go:205-369 | the decoder succeeds with a message if and only if the bytes are a concatenation of records that the schema takes one after the other to that message, for any schema |
| `Records.OneReading` | HalbornCTF_Golang_Cosmos/x/hal/types/tickets.pb.go:370-447 | bytes are the concatenation of at most one sequence of records |
| `Records.VarintRefused` | HalbornCTF_Golang_Cosmos/x/hal/types/tickets.pb.go:211-224 | a varint is too long exactly if ten bytes announce another one, cut off exactly if all do and there are fewer |
| `Records.TagRefused` | HalbornCTF_Golang_Cosmos/x/hal/types/tickets.pb.go:211-224 | without a complete tag that is the decoder's error and the message stays |
| `Records.NumberRefused` | HalbornCTF_Golang_Cosmos/x/hal/types/tickets.pb.go:225-237 | an end-group tag, a number that is not positive, a known number under the wrong wire type: which error each gives, the message staying as it is |
| `Records.LengthRefused` | HalbornCTF_Golang_Cosmos/x/hal/types/tickets.pb.go:238-252 | a known counted field whose length is too long or cut off: which error, the message staying |
| `Records.PayloadRefused` | HalbornCTF_Golang_Cosmos/x/hal/types/tickets.pb.go:253-263 | a length that is negative as an int, wraps the index or runs past the end: which error, the message staying |
| `Records.ValueRefused` | HalbornCTF_Golang_Cosmos/x/hal/types/tickets.pb.go:298-316 | a known number that is too long or cut off: the error, and the digits read so far in the message |
| `Records.SkipRefused` | HalbornCTF_Golang_Cosmos/x/hal/types/tickets.pb.go:370-447 | the skipper's error, at any depth, for a wire type that does not exist, an end of group outside any, and a number or length too long or cut off |
| `Records.SkipLengthRefused` | HalbornCTF_Golang_Cosmos/x/hal/types/tickets.pb.go:406-427 | its error for a length that is negative as an int or wraps the index, and in a group for one that runs to the end |
| `Records.SkipFixedRefused` | HalbornCTF_Golang_Cosmos/x/hal/types/tickets.pb.go:404-405 | the same for fixed-width values in a group |
| `Records.UnknownRefused` | HalbornCTF_Golang_Cosmos/x/hal/types/tickets.pb.go:349-361 | for an unknown number the skipper's error is the decoder's, and an end behind the buffer's an error of its own; the message stays |
| `Records.DecodeForeign` | HalbornCTF_Golang_Cosmos/x/hal/types/tickets.pb.go:349-361 | a record whose number a decoder does not know leaves the message as it is |
| `Records.InsertForeign` | HalbornCTF_Golang_Cosmos/x/hal/types/tickets.pb.go:349-447 | inserting such a record between fields changes neither the decoded message nor success |
| `Layout.OneLayout` | HalbornCTF_Golang_Cosmos/x/hal/types/tickets.pb.go:130-174 | set fields, each once, in the order of their numbers, tags, lengths and numbers in the shortest spelling: at most one byte string is that |
| `Tickets.SizeIsLength` | HalbornCTF_Golang_Cosmos/x/hal/types/tickets.pb.go:175-197 | Size is the length of the wire form, for every ticket |
| `Tickets.MarshalledLayout` | HalbornCTF_Golang_Cosmos/x/hal/types/tickets.pb.go:130-162 | the wire form is that of the set fields, 1 author, 2 issue, 3 id, 4 additional info, for every ticket that fits |
| `Tickets.TicketTakes` | HalbornCTF_Golang_Cosmos/x/hal/types/tickets.pb.go:233-361 | what any record does to a ticket, spelled-out empty texts and zeros included |
| `Tickets.DecodeMarshalled` | HalbornCTF_Golang_Cosmos/x/hal/types/tickets.pb.go:205-369 | decoding a ticket's bytes into any message overwrites exactly the fields the ticket sets |
| `Tickets.RoundTrip` | HalbornCTF_Golang_Cosmos/x/hal/types/tickets.pb.go:115-369 | Unmarshal of Marshal into an empty message is the ticket itself |
| `Tickets.LastOneWins` | HalbornCTF_Golang_Cosmos/x/hal/types/tickets.pb.go:205-369 | two encodings in a row decode to the field-wise merge in which the second's set fields win |
| `Tickets.ForeignBetween` | HalbornCTF_Golang_Cosmos/x/hal/types/tickets.pb.go:349-447 | the same with any unknown record of number above 4 in between |
| `Tickets.TicketMessage.MarshalToSizedBuffer` | HalbornCTF_Golang_Cosmos/x/hal/types/tickets.pb.go:130-162 | the last Size bytes of the buffer are the wire form, without gap or overlap, and no other byte changes |
| `Tickets.TicketMessage.Marshal` | HalbornCTF_Golang_Cosmos/x/hal/types/tickets.pb.go:115-123 | a fresh buffer holding exactly the wire form |
| `Tickets.TicketMessage.Unmarshal` | HalbornCTF_Golang_Cosmos/x/hal/types/tickets.pb.go:205-369 | on every byte string: termination, no index out of range, and the message and error of the decoding specification, partial updates included |
| `Tickets.TicketMessage.UnmarshalField` | HalbornCTF_Golang_Cosmos/x/hal/types/tickets.pb.go:209-362 | one round of the field loop does to the message what the specification's round does |
| `Params.MetaSizeIsLength` | HalbornCTF_Golang_Cosmos/x/hal/types/params.pb.go:400-418 | TokenMeta's Size is the length of its wire form |
| `Params.MetaLayout` | HalbornCTF_Golang_Cosmos/x/hal/types/params.pb.go:344-369 | the wire form is that of the set fields, 1 denomination, 2 decimals, 3 description |
| `Params.MetaTakes` | HalbornCTF_Golang_Cosmos/x/hal/types/params.pb.go:622-718 | what any record does to a TokenMeta |
| `Params.DecodeMeta` | HalbornCTF_Golang_Cosmos/x/hal/types/params.pb.go:594-726 | TokenMeta's bytes overwrite exactly the fields it sets; into an empty message they give it back, for every uint32 Decimals |
| `Params.Int32RoundTrip` | HalbornCTF_Golang_Cosmos/x/hal/types/params.pb.go:313-317 | every int32 survives sign extension and truncation, and a negative one takes ten bytes, as the size formula says |
| `Params.ParamsSizeIsLength` | HalbornCTF_Golang_Cosmos/x/hal/types/params.pb.go:382-398 | Params' Size is the length of its wire form |
| `Params.ParamsLayout` | HalbornCTF_Golang_Cosmos/x/hal/types/params.pb.go:288-327 | the wire form is that of the fields, 1 waiting time, 2 entries unless zero, 3 collateral metadata, 4 HAL metadata |
| `Params.ParamsTakes` | HalbornCTF_Golang_Cosmos/x/hal/types/params.pb.go:454-585 | what any record does to Params: nested messages are decoded on top of what is there |
| `Params.NestedRefused` | HalbornCTF_Golang_Cosmos/x/hal/types/params.pb.go:484-486 | a nested message that does not decode leaves what was read of it and its error |
| `Params.ParamsRoundTrip` | HalbornCTF_Golang_Cosmos/x/hal/types/params.pb.go:426-593 | Params come back from their bytes: nested metas, the int32 and the duration |
| `Params.TokenMetaMessage.MarshalToSizedBuffer` | HalbornCTF_Golang_Cosmos/x/hal/types/params.pb.go:344-369 | the wire form is written so that it ends at the given place, the rest of the buffer kept |
| `Params.TokenMetaMessage.Unmarshal` | HalbornCTF_Golang_Cosmos/x/hal/types/params.pb.go:594-726 | equals the decoding specification on every byte string |
| `Params.ParamsMessage.Marshal` | HalbornCTF_Golang_Cosmos/x/hal/types/params.pb.go:273-327 | a fresh buffer holding exactly the wire form |
| `Params.ParamsMessage.Unmarshal` | HalbornCTF_Golang_Cosmos/x/hal/types/params.pb.go:426-593 | equals the decoding specification on every byte string, nested decoders included |
| `RedeemRequests.RoundTrip` | HalbornCTF_Golang_Cosmos/x/hal/types/redeem_request.pb.go:138-352 | a redeem request comes back from its bytes |
| `RedeemRequests.MarshalledLayout` | HalbornCTF_Golang_Cosmos/x/hal/types/redeem_request.pb.go:138-171 | the wire form is that of the fields, 1 account unless empty, 2 collateral, 3 completion time |
| `RedeemRequests.RequestTakes` | HalbornCTF_Golang_Cosmos/x/hal/types/redeem_request.pb.go:233-341 | what any record does to a request: coin and time are decoded on top of what is there |
| `RedeemRequests.NestedRefused` | HalbornCTF_Golang_Cosmos/x/hal/types/redeem_request.pb.go:295-297 | a coin or time that does not decode leaves what was read of it and its error |
| `RedeemRequests.TicketAccepted` | HalbornCTF_Golang_Cosmos/x/hal/types/redeem_request.pb.go:205-352 | the decoder accepts a ticket's bytes if and only if its id is zero and its issue is empty or decodes as a coin |
| `RedeemRequests.ParamsAccepted` | HalbornCTF_Golang_Cosmos/x/hal/types/redeem_request.pb.go:205-352 | it accepts Params' bytes if and only if MaxRedeemEntries is zero and the collateral metadata decode as a timestamp |
| `RedeemRequests.ZeroByteRejected` | HalbornCTF_Golang_Cosmos/x/hal/types/redeem_request.pb.go:230-232 | a value that starts with a zero byte is rejected with the request untouched |
| `RedeemRequests.RedeemRequestMessage.Unmarshal` | HalbornCTF_Golang_Cosmos/x/hal/types/redeem_request.pb.go:205-352 | equals the decoding specification on every byte string |
| `ByteOrder.KeysInOrder` | HalbornCTF_Golang_Cosmos/x/hal/keeper/keeper.go:74-81 | the iteration visits every key once, in byte order |
| `Store.KeysApart` | HalbornCTF_Golang_Cosmos/x/hal/types/keys.go:19-29 | no two kinds of key collide, except the ticket key of the one id that spells the counter's key |
| `Store.KeyTexts` | HalbornCTF_Golang_Cosmos/x/hal/types/keys.go:19-29 | the keys as texts, a ticket's ending in its id in eight bytes, most significant first |
| `Store.CountsTickets` | HalbornCTF_Golang_Cosmos/x/hal/keeper/ticket.go:41-51 | the counter reads the number of tickets |
| `Store.TicketsReadBack` | HalbornCTF_Golang_Cosmos/x/hal/keeper/ticket.go:31-36 | every ticket decodes back unchanged from under its id |
| `Store.AppendRefines` | HalbornCTF_Golang_Cosmos/x/hal/keeper/ticket.go:13-39 | appending to the store appends to the sequence and disturbs nothing else, for every id below 0x5F636F756E746572 |
| `Store.CounterAdvances` | HalbornCTF_Golang_Cosmos/x/hal/keeper/ticket.go:37 | the counter then reads one more, wrapping in 64 bits |
| `Store.AppendedReadsBack` | HalbornCTF_Golang_Cosmos/x/hal/keeper/ticket.go:31-37 | the ticket decodes back from under its id, unless that spells the counter's key |
| `Store.AppendCollides` | HalbornCTF_Golang_Cosmos/x/hal/keeper/ticket.go:36-37 | at that id the counter overwrites the ticket |
| `Store.SetRequestRefines` | HalbornCTF_Golang_Cosmos/x/hal/keeper/keeper.go:65-70 | storing a request updates the account's request only |
| `Store.DeleteRequestRefines` | HalbornCTF_Golang_Cosmos/x/hal/keeper/keeper.go:102-106 | deleting removes the account's request only |
| `Store.SetParamsRefines` | HalbornCTF_Golang_Cosmos/x/hal/keeper/params.go:24-33 | storing params replaces the params only |
| `Store.ParamsReadBack` | HalbornCTF_Golang_Cosmos/x/hal/keeper/params.go:12-21 | the params read back unchanged |
| `Store.AcceptedIff` | HalbornCTF_Golang_Cosmos/x/hal/types/redeem_request.pb.go:205-352 | any value at all is taken for a redeem request if and only if it reads as a sequence of records that the request schema takes |
| `Store.CounterRejected` | HalbornCTF_Golang_Cosmos/x/hal/keeper/keeper.go:87-93 | no counter value below 2^56 is; above, `Store.AcceptedIff` decides |
| `Store.CounterCanPass` | HalbornCTF_Golang_Cosmos/x/hal/keeper/keeper.go:87-93 | a counter value that is |
| `Store.AcceptedKeys` | HalbornCTF_Golang_Cosmos/x/hal/keeper/keeper.go:72-99 | exactly which stored values the reader takes for redeem requests, in every state: genuine ones, and the first ticket, the params and the counter under the stated conditions |
| `Store.ReadsExactly` | HalbornCTF_Golang_Cosmos/x/hal/keeper/keeper.go:72-99 | what the reader returns, in every state: the requests in the order of their accounts, then the params, the first ticket and the counter as far as they pass, each as the request it is taken for |
| `Store.ReadsGenuineIff` | HalbornCTF_Golang_Cosmos/x/hal/keeper/keeper.go:72-99 | it returns them, each once and nothing else, if and only if the first ticket, the params and the counter are all rejected |
| `Store.ReaderStrays` | HalbornCTF_Golang_Cosmos/x/hal/keeper/keeper.go:87-96 | a store with one ticket without issue text and no request, from which the reader returns a request of the ticket's author |
| `Store.RunRefines` | HalbornCTF_Golang_Cosmos/x/hal/keeper/ticket.go:13-60 | every run of appends, requests, deletions and parameter changes on the flat store is the same run on the typed state |
| `Store.Keeper.GetTicketCount` | HalbornCTF_Golang_Cosmos/x/hal/keeper/ticket.go:41-51 | the count, zero without a counter, a panic exactly on fewer than eight bytes |
| `Store.Keeper.SetTicketCounter` | HalbornCTF_Golang_Cosmos/x/hal/keeper/ticket.go:53-60 | the counter reads back as set and every other entry stays |
| `Store.Keeper.AddMetadata` | HalbornCTF_Golang_Cosmos/x/hal/keeper/ticket.go:17-26 | every metadata entry is added once, in some order |
| `Store.Keeper.AppendTicket` | HalbornCTF_Golang_Cosmos/x/hal/keeper/ticket.go:13-39 | the ticket is stored under the old count, which is returned, with a status, a timestamp and a chain ID line added to its info in some order, and reads back from there; the counter advances |
| `Store.Keeper.StoreParams` | HalbornCTF_Golang_Cosmos/x/hal/keeper/params.go:24-33 | the new store is the specified one |
| `Store.Keeper.GetParams` | HalbornCTF_Golang_Cosmos/x/hal/keeper/params.go:12-21 | the decoded entry, empty params without one, a panic on bytes that do not decode |
| `Store.Keeper.SetRedeemRequest` | HalbornCTF_Golang_Cosmos/x/hal/keeper/keeper.go:65-70 | the new store is the specified one |
| `Store.Keeper.DeleteRedeemRequest` | HalbornCTF_Golang_Cosmos/x/hal/keeper/keeper.go:102-106 | the new store is the specified one |
| `Store.Keeper.GetAllRedeemRequests` | HalbornCTF_Golang_Cosmos/x/hal/keeper/keeper.go:72-99 | the values that decode, in key order, the others dropped |
| `Hal.SendMoves` | HalbornCTF_Golang_Cosmos/x/hal/keeper/msg_server_mint_hal.go:51-55 | a send moves the amount between the two holders, conserves the total and touches no one else |
| `Hal.MintKeeps` | HalbornCTF_Golang_Cosmos/x/hal/keeper/msg_server_mint_hal.go:15-60 | an accepted mint keeps the invariant, a failed deposit being booked as missed |
| `Hal.MintAcceptedIff` | HalbornCTF_Golang_Cosmos/x/hal/keeper/msg_server_mint_hal.go:15-55 | in every state a mint is accepted if and only if the creator is valid, the coin is in the collateral denomination and not negative, and both denominations are valid |
| `Hal.MintElsewhere` | HalbornCTF_Golang_Cosmos/x/hal/keeper/msg_server_mint_hal.go:27-32 | a mint in another denomination changes neither state nor ledger, in any run |
| `Hal.MintCreditsCreator` | HalbornCTF_Golang_Cosmos/x/hal/keeper/msg_server_mint_hal.go:38-55 | the creator alone gains two HAL per unit; collateral moves to the pool exactly when the creator has it |
| `Hal.RedeemDebitsCreator` | HalbornCTF_Golang_Cosmos/x/hal/keeper/msg_server_redeem_collateral.go:31-38 | an accepted redeem takes its amount from the creator exactly if the creator has it, and otherwise from the HAL the pool was sent |
| `Hal.RedeemAcceptedIff` | HalbornCTF_Golang_Cosmos/x/hal/keeper/msg_server_redeem_collateral.go:16-54 | in every state a redeem is accepted if and only if the creator and the denominations are valid, the creator or the pool holds the amount, and the collateral pool half of it |
| `Hal.RedeemKeeps` | HalbornCTF_Golang_Cosmos/x/hal/keeper/msg_server_redeem_collateral.go:16-73 | an accepted redeem keeps the invariant, a replaced request being booked as overwritten and HAL of the pool as burnt |
| `Hal.OnePayment` | HalbornCTF_Golang_Cosmos/x/hal/keeper/keeper.go:122-138 | a payment keeps the remaining requests covered and reaches the account only |
| `Hal.PayOneExact` | HalbornCTF_Golang_Cosmos/x/hal/keeper/keeper.go:115-139 | what one round does with any request in any denomination: passed over, panic, or paid from the pool to the account with no other balance touched, and deleted |
| `Hal.Payout` | HalbornCTF_Golang_Cosmos/x/hal/keeper/keeper.go:109-141 | the loop panics if and only if a due request is for nothing; otherwise every due request is paid in full and exactly those are deleted |
| `Hal.StepKeeps` | HalbornCTF_Golang_Cosmos/x/hal/keeper/msg_server_mint_hal.go:38-55 | every step, block starts, transfers to users and pools and new collateral included, keeps the invariant |
| `Hal.ReachableInv` | HalbornCTF_Golang_Cosmos/x/hal/keeper/msg_server_redeem_collateral.go:31-67 | the invariant holds in every reachable state of every run |
| `Hal.AccountingIdentity` | HalbornCTF_Golang_Cosmos/x/hal/keeper/msg_server_mint_hal.go:38-55 | supply less twice the collateral pool is twice the collateral never deposited, less the odd redeems, less twice the collateral given to the pool; the pool's HAL is what was given less what was burnt of it |
| `Hal.CheckPassesIff` | HalbornCTF_Golang_Cosmos/x/hal/keeper/keeper.go:143-180 | exactly when the check at the start of a block passes, in every reachable state, and what that comes to when every deposit was made |
| `Hal.CheckFails` | HalbornCTF_Golang_Cosmos/x/hal/keeper/abci.go:16-21 | mint for 2 and redeem 2 in one block: every deposit is made, the block ends, and the next block start stops the chain |
| `Hal.PoolCoversPending` | HalbornCTF_Golang_Cosmos/x/hal/keeper/keeper.go:65-70 | the redeem pool is the pending requests plus what was overwritten plus what was given; everything redeemed is paid, pending or overwritten; collateral is conserved |
| `Hal.FullyBacked` | HalbornCTF_Golang_Cosmos/x/hal/keeper/msg_server_redeem_collateral.go:34-54 | if every deposit succeeded, supply is at most twice the pool, and a valid redeem succeeds if and only if the creator or the pool holds the HAL |
| `Hal.EndBlockPays` | HalbornCTF_Golang_Cosmos/x/hal/keeper/keeper.go:109-141 | in every reachable state: due requests paid once and in full, none early, exactly those removed; it panics if and only if a due request is for nothing |
| `Hal.EndBlockFails` | HalbornCTF_Golang_Cosmos/x/hal/keeper/msg_server_redeem_collateral.go:42-67 | mint for 1 without collateral and redeem 1: the block ends, the next one starts, and its end past the waiting time stops the chain |
| `Hal.RedeemOfGift` | HalbornCTF_Golang_Cosmos/x/hal/keeper/msg_server_redeem_collateral.go:33-38 | a run in which an account that never held HAL redeems what another sent to the pool |
| `Hal.RequestWaits` | HalbornCTF_Golang_Cosmos/x/hal/keeper/keeper.go:109-141 | in any run before its time, without another accepted redeem of the account, a request stays as stored and no block end pays the account |
| `Hal.RedeemIsPaid` | HalbornCTF_Golang_Cosmos/x/hal/keeper/msg_server_redeem_collateral.go:40-67 | after an accepted redeem and any such run, the first block end past the waiting time that does not panic pays half of the burnt amount, rounded down, and removes the request |
| `Hal.RunGoesOnIff` | HalbornCTF_Golang_Cosmos/x/hal/keeper/abci.go:9-21 | a run goes on if and only if at each block start in it there is no HAL or twice the missed deposits less the odd redeems cover twice the redeem pool and the collateral given, and at each block end no due request is for nothing |
| `Hal.BlockEndGoesOn` | HalbornCTF_Golang_Cosmos/x/hal/keeper/keeper.go:132-135 | if every redeem so far is of at least 2 HAL, no block end stops the chain |
| `Hal.HalModule.HandleMint` | HalbornCTF_Golang_Cosmos/x/hal/keeper/msg_server_mint_hal.go:15-60 | the bank operations in their order give the specified state; an error, or the panic on an invalid coin, changes nothing |
| `Hal.HalModule.HandleRedeem` | HalbornCTF_Golang_Cosmos/x/hal/keeper/msg_server_redeem_collateral.go:16-73 | the same for a redeem, later errors undoing earlier moves |
| `Hal.HalModule.HandleBeginBlock` | HalbornCTF_Golang_Cosmos/x/hal/keeper/keeper.go:143-180 | passes exactly when there is no HAL or the supply is at least twice both pools together |
| `Hal.HalModule.HandleRequest` | HalbornCTF_Golang_Cosmos/x/hal/keeper/keeper.go:115-139 | one round of the loop, for a request in any denomination: paid and deleted, passed over, or the panic |
| `Hal.HalModule.HandleEndBlock` | HalbornCTF_Golang_Cosmos/x/hal/keeper/keeper.go:109-141 | the loop over any list gives the specified state or the panic |
| `HalStore.PayoutStands` | HalbornCTF_Golang_Cosmos/x/hal/keeper/keeper.go:109-141 | paying any list with deletions from the byte store is paying it on typed requests, panics included |
| `HalStore.ListingRead` | HalbornCTF_Golang_Cosmos/x/hal/keeper/keeper.go:72-99 | the reader over the byte store returns the machine's requests in the order of their accounts, and then the strays |
| `HalStore.RunStands` | HalbornCTF_Golang_Cosmos/x/hal/keeper/keeper.go:64-141 | every run of handlers, block starts, block ends and ticket appends on the byte store, from any state, stops where the run on typed requests with strays stops, with its balances, and the store then holds exactly tickets, requests and params |
| `HalStore.RunUndisturbed` | HalbornCTF_Golang_Cosmos/x/hal/keeper/keeper.go:64-141 | while no other value passes for a request, that run is the machine's own |
| `HalStore.PaidInTurn` | HalbornCTF_Golang_Cosmos/x/hal/keeper/keeper.go:109-141 | strays are paid after the genuine requests, from what these leave in the pool |
| `HalStore.TicketStops` | HalbornCTF_Golang_Cosmos/x/hal/keeper/keeper.go:115-128 | once the first ticket has no issue text and an address as author, every block end past the empty time stops the chain, the empty coin being invalid |
| `Registry.UserKeyInjective` | HalbornCTF_Rust_NEAR/halborn-near-ctf-associated-contract/src/storage.rs:14 | no two pairs of event and account share a key, although decimal ids are not delimited |
| `Registry.DecimalSpells` | HalbornCTF_Rust_NEAR/halborn-near-ctf-associated-contract/src/storage.rs:14 | the digits of an id, most significant first, spell it, without leading zeros |
| `Registry.EventKeysInjective` | HalbornCTF_Rust_NEAR/halborn-near-ctf-associated-contract/src/storage.rs:12-13 | no two events share a key in either map |
| `Registry.LittleEndianSpells` | HalbornCTF_Rust_NEAR/halborn-near-ctf-associated-contract/src/storage.rs:12-13 | the bytes of a map's key, least significant first, spell the id |
| `Registry.CollectionsApart` | HalbornCTF_Rust_NEAR/halborn-near-ctf-associated-contract/src/storage.rs:9-16 | no two collections share a key |
| `Registry.KeyTexts` | HalbornCTF_Rust_NEAR/halborn-near-ctf-associated-contract/src/storage.rs:9-16 | the keys as texts, with the id little-endian in the maps and decimal in the sets' prefixes |
| `Registry.CheckAnswers` | HalbornCTF_Rust_NEAR/halborn-near-ctf-associated-contract/src/lib.rs:143-150 | the query answers for the registry and its unwrap never panics |
| `Registry.CallRefines` | HalbornCTF_Rust_NEAR/halborn-near-ctf-associated-contract/src/lib.rs:79-141 | each call does to the flat storage what is meant and panics exactly when it should, in either build |
| `Registry.RunStands` | HalbornCTF_Rust_NEAR/halborn-near-ctf-associated-contract/src/lib.rs:79-150 | every run on flat storage is a run on the registry |
| `Registry.StateFromHistory` | HalbornCTF_Rust_NEAR/halborn-near-ctf-associated-contract/src/lib.rs:79-141 | an event exists exactly when a call created it and no later call removed it; a mark exists exactly when a call ever set it |
| `Registry.CheckIsHistory` | HalbornCTF_Rust_NEAR/halborn-near-ctf-associated-contract/src/lib.rs:143-150 | the query on flat storage holds if and only if the event exists and the account was ever registered under its id, for every run of either build |
| `Registry.EventIsHistory` | HalbornCTF_Rust_NEAR/halborn-near-ctf-associated-contract/src/lib.rs:73-104 | in every run of either build an event can be read exactly while it exists, and then is live and has the time and title of the last call that created it |
| `Registry.AllowedIff` | HalbornCTF_Rust_NEAR/halborn-near-ctf-associated-contract/src/lib.rs:79-182 | a call takes effect if and only if the history allows it: the owner of the time, a club still privileged, an event that exists, an id left |
| `Registry.MeansRegisteredIff` | HalbornCTF_Rust_NEAR/halborn-near-ctf-associated-contract/src/lib.rs:143-150 | that is "registered and the event not removed since" if and only if no removed event of the account's has come back under its id |
| `Registry.IdsOnce` | HalbornCTF_Rust_NEAR/halborn-near-ctf-associated-contract/src/lib.rs:96 | up to 65536 events, and always with overflow checks, no id is given out twice |
| `Registry.MeansRegistered` | HalbornCTF_Rust_NEAR/halborn-near-ctf-associated-contract/src/lib.rs:143-150 | so the query then means "registered and the event not removed since" |
| `Registry.RemovedComesBack` | HalbornCTF_Rust_NEAR/halborn-near-ctf-associated-contract/src/lib.rs:96-104 | a run without overflow checks after which it does not |
| `Registry.AssociatedContract.AddEvent` | HalbornCTF_Rust_NEAR/halborn-near-ctf-associated-contract/src/lib.rs:79-98 | the new event under the next id, which wraps, or a revert where a checked u16 overflows |
| `Registry.AssociatedContract.Remove` | HalbornCTF_Rust_NEAR/halborn-near-ctf-associated-contract/src/lib.rs:100-104 | the owner removes the event from both maps; anyone else changes nothing |
| `Registry.AssociatedContract.TakeOffline` | HalbornCTF_Rust_NEAR/halborn-near-ctf-associated-contract/src/lib.rs:109-112 | the call fails without the owner or the event, and never changes the storage |
| `Registry.AssociatedContract.AddClub` | HalbornCTF_Rust_NEAR/halborn-near-ctf-associated-contract/src/lib.rs:114-117 | the specified storage for the owner, no change for others |
| `Registry.AssociatedContract.RemoveClub` | HalbornCTF_Rust_NEAR/halborn-near-ctf-associated-contract/src/lib.rs:119-122 | the specified storage for the owner, no change for others |
| `Registry.AssociatedContract.Register` | HalbornCTF_Rust_NEAR/halborn-near-ctf-associated-contract/src/lib.rs:124-141 | the account is marked under the stored set's prefix, or nothing changes |
| `Registry.AssociatedContract.ReadEvent` | HalbornCTF_Rust_NEAR/halborn-near-ctf-associated-contract/src/lib.rs:73-75 | the stored event, or the panic of unwrap |
| `Registry.AssociatedContract.IsRegistered` | HalbornCTF_Rust_NEAR/halborn-near-ctf-associated-contract/src/lib.rs:143-150 | the specified answer, the panic of unwrap included |
| `Pairs.PairKeySymmetric` | HalbornCTF_Rust_CosmWasm/dvamm/contracts/factory/src/state.rs:29-34 | the key is the lesser asset followed by the other, in whichever order they are given |
| `Pairs.KeysCollideIff` | HalbornCTF_Rust_CosmWasm/dvamm/contracts/factory/src/state.rs:29-34 | two unordered pairs share a key if and only if they are equal or a stretch of bytes moves over the seam between their assets |
| `Pairs.KeysCollide` | HalbornCTF_Rust_CosmWasm/dvamm/contracts/factory/src/contract.rs:152-157 | "a" with "bc" and "ab" with "c" have one key, by which pair creation tests existence |
| `Pairs.ReadPairsExact` | HalbornCTF_Rust_CosmWasm/dvamm/contracts/factory/src/state.rs:39-56 | the addresses of the first registered keys above the bound, in key order: 30, as many as asked for, 10 if nothing was, or all, whichever is least |
| `Pairs.ShadowedShape` | HalbornCTF_Rust_CosmWasm/dvamm/contracts/factory/src/state.rs:59-71 | exactly which keys lie between a key and the bound built from it |
| `Pairs.PrintableKeys` | HalbornCTF_Rust_CosmWasm/dvamm/contracts/factory/src/state.rs:59-71 | if all key bytes exceed 1 there are none |
| `Pairs.NextPageIff` | HalbornCTF_Rust_CosmWasm/dvamm/contracts/factory/src/state.rs:46-50 | the next page starts right behind a key if and only if no registered key lies in between |
| `Pairs.WalkListsAllIff` | HalbornCTF_Rust_CosmWasm/dvamm/contracts/factory/src/state.rs:39-71 | walking page by page, each page started after the last pair's assets, returns every pair's address once, in key order, for all limits of at least 1, if and only if no key lies between another and its bound |
| `Pairs.WalkSkips` | HalbornCTF_Rust_CosmWasm/dvamm/contracts/factory/src/state.rs:59-71 | two pairs under [2] and [2, 0] of which a walk one by one does not list both |
| `LevelUp.SumClosedForm` | HalbornCTF_Rust_Solana/ctf_game/ctf/src/processor.rs:170-179 | the closed form of the levels' sum |
| `LevelUp.CostBound` | HalbornCTF_Rust_Solana/ctf_game/ctf/src/processor.rs:170-179 | no cost exceeds 8323200, so u32 never overflows in the loop |
| `LevelUp.Climb` | HalbornCTF_Rust_Solana/ctf_game/ctf/src/processor.rs:169-184 | the loop ends at the least level whose cost reaches the target, or at 255, with the matching charge, in at most 256 - L rounds |
| `LevelUp.ChargeForm` | HalbornCTF_Rust_Solana/ctf_game/ctf/src/processor.rs:169-184 | the charge in closed form: all levels to 255 for a target not reached, the current level for standing still, else the levels below the one reached |
| `LevelUp.TargetUnique` | HalbornCTF_Rust_Solana/ctf_game/ctf/src/processor.rs:169-184 | that level is unique |
| `LevelUp.AcceptedIff` | HalbornCTF_Rust_Solana/ctf_game/ctf/src/processor.rs:186-192 | the wrapping subtraction is refused only when credits equal the charge; the charge is really paid exactly when credits exceed it, and 2^32 more credits are left when they fall short |
| `LevelUp.CreditsWrapUp` | HalbornCTF_Rust_Solana/ctf_game/ctf/src/processor.rs:186-192 | a user without credits whose accepted call leaves the largest u32 |
| `LevelUp.PathIndependent` | HalbornCTF_Rust_Solana/ctf_game/ctf/src/processor.rs:169-192 | over any sequence of climbs the total charge depends only on the first and last level |
| `LevelUp.UserAccount.MintCredits` | HalbornCTF_Rust_Solana/ctf_game/ctf/src/processor.rs:144 | the account gains the amount if and only if the sum fits in 32 bits, else it is left with fewer credits; the level stays |
| `LevelUp.UserAccount.LevelUp` | HalbornCTF_Rust_Solana/ctf_game/ctf/src/processor.rs:151-197 | the account moves to the target level with the charge taken off, or is unchanged on the error |
| `Staking.StakingContract.HandleStake` | HalbornCTF_Rust_NEAR/halborn-near-ctf-staking/src/lib.rs:28-47 | balance and total grow by the deposit, saturating |
| `Staking.StakingContract.HandleUnstake` | HalbornCTF_Rust_NEAR/halborn-near-ctf-staking/src/lib.rs:49-70 | exactly min(amount, balance) is paid, zero is refused, an unknown user gets false |
| `Staking.CallExact` | HalbornCTF_Rust_NEAR/halborn-near-ctf-staking/src/lib.rs:28-70 | balance and total move by the amount as far as 0 and the largest u128 let them, each on its own, and no other balance moves |
| `Staking.GapGrows` | HalbornCTF_Rust_NEAR/halborn-near-ctf-staking/src/lib.rs:56-60 | an overdraw widens the gap between balances and total by the excess, as far as the total can fall |
| `Staking.RunSolvent` | HalbornCTF_Rust_NEAR/halborn-near-ctf-staking/src/lib.rs:28-70 | in every run total_staked is at most the sum of balances, and that at most deposits less payouts; all numbers stay in range |
| `Staking.RunBalancedIff` | HalbornCTF_Rust_NEAR/halborn-near-ctf-staking/src/lib.rs:28-70 | with equality all along a run if and only if no stake saturates the total and every unstake is by someone unknown, within the balance, or by the only holder |
| `Club.MintBacked` | HalbornCTF_Rust_NEAR/halborn-near-ctf/src/lib.rs:105-125 | a mint fails only at the supply check, raises the balances only for a registered account, and keeps them within the supply |
| `Club.BurnBacked` | HalbornCTF_Rust_NEAR/halborn-near-ctf/src/lib.rs:242-263 | a burn fails only for a missing account or balance and keeps the balances within the supply |
| `Club.OnlyTheAccount` | HalbornCTF_Rust_NEAR/halborn-near-ctf/src/lib.rs:116-122 | a mint or burn moves the account's balance by the amount and no other |
| `Club.RegistrationBurns` | HalbornCTF_Rust_NEAR/halborn-near-ctf/src/lib.rs:146-149 | a registration burns the largest q of which d fit in the supply, from the sender alone, and is refused exactly if the sender has less or is unknown |
| `Club.RunBacked` | HalbornCTF_Rust_NEAR/halborn-near-ctf/src/lib.rs:105-154 | in every run of mints, burns and registrations the balances stay within the supply |
| `Club.SupplyAfterRegistrations` | HalbornCTF_Rust_NEAR/halborn-near-ctf/src/lib.rs:137-154 | after n registrations with denominator d, d^n S_n is at least (d-1)^n S_0, and the supply is never below min(S_0, d-1) |
| `Club.MalbornToken.MintTokens` | HalbornCTF_Rust_NEAR/halborn-near-ctf/src/lib.rs:105-125 | supply and a registered balance grow together; overflow reverts both |
| `Club.MalbornToken.BurnTokensInternal` | HalbornCTF_Rust_NEAR/halborn-near-ctf/src/lib.rs:242-263 | supply and balance shrink together, or nothing changes |
| `Club.MalbornToken.RegisterForEvent` | HalbornCTF_Rust_NEAR/halborn-near-ctf/src/lib.rs:146-149 | the supply's d-th part is burnt from the sender, or nothing changes |

## Left out

- Hal.HalModule.HandleMint: amounts are unbounded; the revert on overflow of the bank's 256-bit integers is not modelled.
- Registry.AssociatedContract.Register: values in storage are kept as events, prefixes and marks, not as their Borsh bytes.
- The writer of RedeemRequest in place: its wire form is a function here; the buffer writes repeat those of Ticket and Params.
- The nil receivers, String, Equal, Descriptor and reflection hooks of the generated messages, and error texts beyond their kind.
- CreateTicket's payment and the message and query servers around the keeper: plumbing around the modelled calls.
- Internals of the bank, of decimal arithmetic and of the Coin, Duration and Timestamp codecs: outside the repository.
- Pause, blocklist, token metadata, NEP-141 transfers, promises and the airdrop of the NEAR contracts: one-branch guards or library calls.
- Address derivation, rent and cross-program calls of the Solana program, and who may call it.
- Pair creation and its reply in the factory, and the pair contract.
- Substrate, Solidity and Sway code, application wiring, command line, simulation and scripts.
