# Position mapping: identity and versioning core

This project models the event-handling core of a subgraph mapping. It
receives two kinds of contract events, "position opened" and "position
closed". From them it keeps a table of `Position` records. Each record
has an id derived from the emitting contract and the position owner.

- **Keys.** The current record of a (contract, owner) pair sits under
  `hashOfPosition(contract, owner).toHex()`. This is the hex rendering of
  a Keccak-256 digest over the two zero-padded addresses.
- **Open.** If a current record exists, it is copied to a historical
  record first. That record's id comes from `hashOfPositionNew`, which adds
  the block number. The copy has `closed = true`. Then the event's values
  are written into the current record.
- **Close.** If a current record exists, it is archived the same way.
  Then its contract and owner are set to the zero address.
- **Allow-list.** Events from contracts outside a lazily filled list of
  two addresses are ignored.

How the model is laid out:

- `Hex`: `padHex` and the string operations it relies on.
- `Runtime`: the host conversions, as an uninterpreted `Host` value.
- `Identity`: the two preimages, the digests and the ids.
- `Schema`: the entity, the event payloads and the store.
- `AllowList`: the two listed addresses.
- `Handlers`: each handler as a pure function from the store before an
  event to the store after it, plus the properties of the open/close state
  machine.
- `Mapping`: a class `Subgraph` with the module-level `allowedContracts`
  array and the entity store as mutable fields. Its methods follow the
  handlers step by step: load, build `oldEntity`, save, update, save.
  Each handler method is proved to leave exactly the store that the
  matching `Handlers` function describes.

The handler functions take the id derivation as a `KeyScheme` parameter.
Every `Handlers` lemma that does not mention `Keys(host)` therefore holds
for any way of deriving the two keys. `Keys(host)` is the derivation the
mapping actually uses. `SameBlockSnapshotsCollide` relies on one specific
property of it: the log index has no effect on the snapshot key.

The model follows the code as written. In three places the code does not
do what a versioned position table is meant to do, and the model keeps
the code's behaviour in each:

- **Reopening a closed slot.** A reopen could be expected to start the
  slot afresh. In the code, the zeroed record is still stored, so the open
  takes the archiving branch (src/mapping.ts:66-81): the zeroed record is
  copied to a historical record before the new values are written. See
  `ReopenArchivesZeroedRecord`, and `SnapshotBeforeOverwrite` for a whole
  run of opens starting on such a slot.
- **Historical ids.** Every historical record is meant to get an id of its
  own. `hashOfPositionNew` takes `logIndex` but never reads it, and it
  renders the owner a second time where the log index would go
  (src/mapping.ts:47-48). Two events of one pair in one block therefore
  archive under the same id, and the second overwrites the first. See
  `SnapshotIdIgnoresLogIndex` and `SameBlockSnapshotsCollide`.
- **The closed flag.** The `closed` field is meant to be true on a closed
  current record. The close handler zeroes contract and owner but never
  sets `closed` (src/mapping.ts:125-127). So a closed current record keeps
  `closed = false` whenever it was open before. See `CloseOnPresentKey`:
  the closed flag of the current record is unchanged.

## Model

| member | source | states |
|---|---|---|
| Hex.Zeros | src/mapping.ts:9 | The fill `padStart` inserts has exactly the requested length, and every character is '0'. |
| Hex.StripHexPrefix | src/mapping.ts:6-8 | A leading `0x` is removed exactly once when present. Otherwise the string is returned unchanged. |
| Hex.Substr | src/mapping.ts:32 | `owner.toHex().substr(2)` (here and again at line 46): `substr(start)` returns the suffix after `start` characters, or the empty string when `start` is past the end. |
| Hex.PadStart | src/mapping.ts:9 | `padStart(length, '0')` returns the string itself when the target is at or below its length. Otherwise the result has exactly the target length and ends with the string. |
| Hex.PadHex | src/mapping.ts:5-10 | `padHex` never returns fewer characters than the target length, nor fewer than the input has without its `0x`. |
| Hex.PadHexShape | src/mapping.ts:5-10 | The result's length is the larger of the target length and the length of the stripped digits. The digits survive as a suffix and only '0's are added in front. An input already at or over the target is returned as is, never truncated. |
| Hex.PadHexDigits | src/mapping.ts:5-10 | For hex digits that fit, padding the bare digits and padding `0x` plus the digits give the same result: the zero fill followed by the digits. |
| Identity.PositionPreimage | src/mapping.ts:30-33 | The hex string that `hashOfPosition` decodes: the padded contract rendering, then the padded owner rendering without its first two characters. It is at least 80 characters long. |
| Identity.HashOfPosition | src/mapping.ts:25-35 | `hashOfPosition`: the Keccak-256 digest of the decoded preimage. The digest is a host function; nothing is claimed about it. |
| Identity.PositionId | src/mapping.ts:59-62 | The current record's id: the hex rendering of `hashOfPosition`. |
| Identity.SnapshotPreimage | src/mapping.ts:44-49 | The hex string that `hashOfPositionNew` decodes. It begins with the current-id preimage, followed by at least 128 more characters (the padded block number and the padded owner). |
| Identity.HashOfPositionNew | src/mapping.ts:37-51 | `hashOfPositionNew`: the Keccak-256 digest of the decoded snapshot preimage. Its `logIndex` parameter is never read. |
| Identity.SnapshotId | src/mapping.ts:67-74 | A historical record's id: the hex rendering of `hashOfPositionNew`. |
| Identity.PositionPreimageOfAddresses | src/mapping.ts:25-35 | For two 20-byte addresses, the current-id preimage is exactly the 40 digits of the contract followed by the 40 digits of the owner, 80 characters in all. |
| Identity.PositionPreimageInjective | src/mapping.ts:25-35 | For real addresses, equal current-id preimages imply equal contract renderings and equal owner renderings. Digest injectivity is not assumed. |
| Identity.SnapshotIdIgnoresLogIndex | src/mapping.ts:37-51 | The snapshot preimage, the snapshot id and the mapping's snapshot key are the same for every `logIndex`. |
| Identity.SnapshotPreimageOfAddresses | src/mapping.ts:37-51 | The snapshot preimage, field by field: contract digits and owner digits, then the block number padded to 64, then the owner again padded to 64. It is 208 characters long and does not depend on the log index. |
| AllowList.AllowedContracts | src/mapping.ts:12-20 | The list that the first call fills is never empty. |
| AllowList.IsAllowed | src/mapping.ts:22 | The gate test, once the list is filled: membership of the contract in the two-address list. |
| AllowList.IsAllowedIff | src/mapping.ts:14-23 | A contract passes the gate exactly when it equals one of the two listed addresses. |
| Mapping.Subgraph.constructor | src/mapping.ts:12 | A fresh module state has an empty `allowedContracts` and the given store. |
| Mapping.Subgraph.IsAllowedContract | src/mapping.ts:14-23 | After the call the list holds exactly the two addresses. A list that was already filled is left unchanged, so filling is idempotent. The answer is true exactly when the contract is one of the two. |
| Mapping.Subgraph.Load | src/mapping.ts:64 | `Position.load` returns no record exactly when the id is absent. Otherwise it returns the stored record, whose own id is the one asked for. |
| Mapping.Subgraph.Save | src/mapping.ts:81 | `save` writes the whole record under its own id and changes no other key. |
| Mapping.Subgraph.HandleOpenPosition | src/mapping.ts:53-93 | The step-by-step handler leaves the store exactly as `Handlers.OnOpenPosition` describes, and leaves the allow-list filled. |
| Mapping.Subgraph.HandleClosePosition | src/mapping.ts:95-129 | The step-by-step handler leaves the store exactly as `Handlers.OnClosePosition` describes, and leaves the allow-list filled. |
| Schema.NewPosition | src/mapping.ts:83 | `new Position(id)` (also line 67): the record carries the given id, is not closed, and every other field is empty or zero. |
| Schema.ZeroAddress | src/mapping.ts:125-126 | The zero address: the host's decoding of `0x` followed by 40 zeros. |
| Handlers.Opened | src/mapping.ts:86-91 | The current record as an open leaves it: the given id, the event's contract, owner, amount, stopLoss and takeProfit, and `closed = false`. |
| Handlers.Archived | src/mapping.ts:67-80 | The historical copy (also lines 109-122): the new id, the old record's contract, owner, amount, stopLoss and takeProfit, and `closed = true`. |
| Handlers.Zeroed | src/mapping.ts:125-126 | The current record as a close leaves it: contract and owner are the zero address, and the id, amounts and closed flag are kept. |
| Handlers.OnOpenPosition | src/mapping.ts:53-93 | An open never removes a key from the store. |
| Handlers.OnClosePosition | src/mapping.ts:95-129 | A close never removes a key from the store. |
| Handlers.CurrentKeyDependsOnPairOnly | src/mapping.ts:59-62 | The key both handlers read their current record from is the same for any two events with the same contract and owner, whatever their kind, amounts, block or log index. An open and a close of one pair therefore address one record. |
| Handlers.FilteredEventChangesNothing | src/mapping.ts:55-57 | An open or close from a contract that is not listed leaves the store unchanged. |
| Handlers.FilteredEventsChangeNothing | src/mapping.ts:55-57 | Any sequence of events from unlisted contracts leaves the store unchanged. |
| Handlers.OpenOnAbsentKey | src/mapping.ts:82-92 | An open on an absent key adds exactly one record, under the current key. It carries the event's contract, owner, amount, stopLoss and takeProfit, with `closed = false`. Every other record is unchanged. |
| Handlers.OpenOnPresentKey | src/mapping.ts:66-81 | An open on a present key adds only the snapshot key. The snapshot key holds the previous record, closed. The current key holds the event's values, open. No other record changes. |
| Handlers.SecondOpenReplacesCurrent | src/mapping.ts:86-92 | After two opens of one pair, the current record holds the second open's values. |
| Handlers.SameBlockSnapshotsCollide | src/mapping.ts:67-74 | With the mapping's keys, two opens of one pair in one block archive under the same key. The first open's values overwrite the snapshot of the record that was current before both. |
| Handlers.CloseOnAbsentKey | src/mapping.ts:106-108 | A close on an absent key leaves the store unchanged. |
| Handlers.CloseOnPresentKey | src/mapping.ts:108-128 | A close on a present key adds only the snapshot key, which holds the previous record, closed. The current record keeps its id, amount, stopLoss, takeProfit and closed flag, and gets the zero address as contract and owner. No other record changes. |
| Handlers.ReopenArchivesZeroedRecord | src/mapping.ts:66-81 | An open after a close archives the zeroed record: zero contract and owner, the old amount, closed. Then it writes the new values at the current key. |
| Handlers.ApplyKeepsKeyedById | src/mapping.ts:81-92 | Both handlers keep every record stored under its own id. |
| Handlers.ReplayKeepsKeyedById | src/mapping.ts:53-129 | Any sequence of events keeps every record stored under its own id. |
| Handlers.ReplayOfOpens | src/mapping.ts:53-93 | Any run of opens of one allowed pair, on any store, leaves the old store overlaid by the history. That is in turn overlaid by a current record with the last open's values. |
| Handlers.HistoryKeys | src/mapping.ts:66-81 | The history has keys exactly at the snapshot keys of the opens that archive something. These are the first open when the slot already held a record, and every later open. |
| Handlers.HistoryAt | src/mapping.ts:66-81 | With distinct snapshot keys, each archiving open's key holds the record it superseded, closed. For the first open that is the record already stored; for any later open it is the previous open's values. |
| Handlers.HistoryHoldsEverySupersededOpen | src/mapping.ts:66-81 | With distinct snapshot keys, the history holds exactly one closed copy of each superseded record. |
| Handlers.SnapshotBeforeOverwrite | src/mapping.ts:53-93 | After a run of opens whose snapshot keys collide neither with each other, nor with the current key, nor with stored records, there is one current record with the latest values. There is exactly one historical record per superseded record, closed. That includes the record already at the slot, open or zeroed, if there was one. Every other record stored before is untouched. |
| Handlers.OpenOpenCloseStores | src/mapping.ts:53-129 | Open at block 10, open at block 11, then close at block 12 yields the stated chain of map updates. |
| Handlers.OpenOpenCloseExample | src/mapping.ts:53-129 | After open 100 at block 10, open 200 at block 11 and close at block 12, the store holds three new keys. The current record is zeroed with amount 200. The block-11 snapshot holds 100, closed. The block-12 snapshot holds 200, closed. |

## Left out

- Keccak-256, `ByteArray.fromHexString`, `Bytes.fromHexString`, `Bytes.toHex`, `Bytes.toHexString` and `BigInt.toHexString` are host code. They are uninterpreted function parameters (`Runtime.Host`).
- Keccak-256 is not assumed injective. No lemma claims that distinct pairs get distinct ids, only that they get distinct preimages.
- `Bytes.toHex` and `Bytes.toHexString` are modelled as one function: the host renders both the same way.
- The assertion that `fromHexString` makes on odd-length or malformed input is not modelled. It belongs to the same host code and is total here.
- `Array.indexOf` is modelled as value membership in the list. The byte-wise equality the host uses for `Address` is modelled as sequence equality.
- Event decoding, event delivery and block ordering belong to the indexing runtime. Events are given as values, and `Replay` handles them in sequence order.
- The generated entity class and its persistent store are modelled as a map from id to record value, with `Load` and `Save` as lookup and update. Store transactions, concurrency and failure are not modelled.
- `Position` is modelled as an immutable value, where the source mutates an entity object. Each field assignment in the handlers becomes an update of a local value, which is then saved.
- The `Position` fields use `nat` where the source uses `BigInt`. The handlers only copy these values and never do arithmetic on them.
- Hex.PadStart: the `i32` length parameter is modelled as an unbounded `int`. The two call sites pass only 40 and 64.
- An id collision between a snapshot key and the current key, or with an existing record, is excluded by the lemmas that need it. The digest model does not exclude it.
