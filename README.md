# Order repository on Redis, modelled in Dafny

The orders API keeps its orders in Redis through `RedisRepo`
(`repository/order/redis.go`). Each order is stored as JSON under the key
`order:<id>`. The Redis set `orders` lists the keys of all live orders, and
`FindAll` walks that set with `SSCAN`. This project models that repository.

- `wrappers.dfy`: `Option` and `Result`.
- `models.dfy`: `Order` and `LineItem` (`models/order.go`). Ids are `int64`,
  quantities and prices are `nat`, nil timestamps are `None`. UUIDs and times
  are plain values.
- `keys.dfy`: `orderIdKey` with Go's `%d` written out as decimal formatting.
  It comes with an independent digit-value reading, a parser, and proofs that
  the key determines the id.
- `redis.dfy`: the Redis commands the repository uses, over a database with
  two parts. `values` is the string table; `index` is the members of the
  set `orders`. `TxPipeline` is a class that queues commands. Its `Exec`
  applies all of them in order, or none of them when the network fails
  before Redis ran the transaction.
- `repo.dfy`: `RedisRepo` as a class over that database, with `Insert`,
  `FindByID`, `Update`, `DeleteById` and `FindAll` written as the Go code
  is. Where the code does not do what it evidently means to, a corrected
  method (suffix `Fixed`) sits beside it (see Findings). The global invariant
  `IndexConsistent` says the index holds exactly the order keys that have a
  value. Every mutating method keeps it.
- `scenarios.dfy`: callers that run operation sequences on a fresh database.
  Each states what the sequence returns.

Network results are parameters. A `fault` is a transport error. On a read
(`GET`, `MGET`) it is the message. On a write (`SET … XX`, `EXEC`) it is a
`Fault` that also says whether Redis ran the request before the reply was
lost: the caller then sees an error although the database has changed.
The `setNXErr`, `sAddErr`, `delErr` and `sRemErr` parameters are the
errors the Go code reads from a queued command before `Exec`. The scan step
is a `ScanStep` parameter: some members of the index, a next cursor, and an
error. The JSON codec is a `Codec` value made of three functions: encode
and decode, which may fail, and the syntax check `json.Unmarshal` runs over
its input before anything else. No round trip is assumed; scenarios that read an order back take the round
trip as a `requires`.

The model follows the code, also where it differs from what the repository
is meant to do:
- Deleting an absent order returns nil, not `ErrNotExists`, because DEL of a
  missing key is not an error.
- Updating an absent order returns nil, not `ErrNotExists`, because the
  client reports SET XX of a missing key as a false reply, not an error.
- A second `Insert` of an id returns nil instead of a conflict.
- An empty scan step returns cursor 0.

## Model

| member | source | states |
|---|---|---|
| `Keys.DecimalNat` | repository/order/redis.go:19 | the decimal form of n is a non-empty digit string with no leading zero whose digit value is n |
| `Keys.Decimal` | repository/order/redis.go:19 | `%d` of an integer is a canonical signed decimal (no "-0", no leading zeros) whose value is the integer |
| `Keys.CanonicalNatUnique` | repository/order/redis.go:19 | every canonical digit string is the decimal form of its value (reading then formatting gives it back) |
| `Keys.CanonicalIntUnique` | repository/order/redis.go:19 | every canonical signed decimal string is `%d` of its value |
| `Keys.OrderIdKey` | repository/order/redis.go:18-20 | the key is "order:" followed by a canonical signed decimal whose value is the id |
| `Keys.ParseOrderKeyInverts` | repository/order/redis.go:18-20 | parsing an order key gives back its id |
| `Keys.OrderIdKeyOfParsed` | repository/order/redis.go:18-20 | any string the parser accepts is exactly the key of the id it returns |
| `Keys.OrderIdKeyInjective` | repository/order/redis.go:18-20 | two ids, negative ones included, share a key exactly when they are equal |
| `Keys.IndexKeyIsNotAnOrderKey` | repository/order/redis.go:40 | the index key "orders" is not an order key, so order writes and deletes never touch the index |
| `Redis.Store.Get` | repository/order/redis.go:54 | GET gives the stored value, redis.Nil for an absent key, or the transport error |
| `Redis.Step` | repository/order/redis.go:33-84 | what each queued command does when EXEC runs it: SETNX writes only an absent key and replies false, changing nothing, for a present one; DEL removes the key; SADD and SREM add and remove an index member; none touches the other part of the database |
| `Redis.Run` | repository/order/redis.go:45 | EXEC applies the queued commands in order and gives one reply per command |
| `Redis.RunConcat` | repository/order/redis.go:45 | running two batches one after the other equals running them as one batch, with the replies concatenated |
| `Redis.Store.SetXX` | repository/order/redis.go:104 | SET XX overwrites only an existing key and replies whether it wrote; an absent key is a false reply with no error and nothing is created; on a fault the write happened exactly when Redis ran it before the reply was lost; the index is never touched |
| `Redis.Store.MGet` | repository/order/redis.go:138 | MGET gives one entry per key, in order: the value, or nil for an absent key |
| `Redis.Store.TxPipeline` | repository/order/redis.go:31 | a new transaction on this database, with nothing queued |
| `Redis.TxPipeline.SetNX` | repository/order/redis.go:33 | queues SETNX after the commands already queued, without touching the database |
| `Redis.TxPipeline.SAdd` | repository/order/redis.go:40 | queues SADD to the index after the commands already queued |
| `Redis.TxPipeline.Del` | repository/order/redis.go:74 | queues DEL after the commands already queued |
| `Redis.TxPipeline.SRem` | repository/order/redis.go:84 | queues SREM from the index after the commands already queued |
| `Redis.TxPipeline.Discard` | repository/order/redis.go:85 | drops every queued command, including those queued before the failing one |
| `Redis.TxPipeline.Exec` | repository/order/redis.go:45 | an empty queue succeeds without a request and without touching the store. Otherwise the queued commands are all applied in order, with their replies, or, on a fault, none is if Redis never ran them and all are if it did; a fault is reported either way |
| `OrderRepo.InsertBatch` | repository/order/redis.go:31-47 | SETNX then SADD leaves an existing value in place, writes an absent one, adds the key to the index, and SETNX replies whether it wrote |
| `OrderRepo.DeleteBatch` | repository/order/redis.go:73-91 | DEL then SREM removes the key from both the table and the index and changes nothing else; DEL replies 1 if the key had a value and 0 if not |
| `OrderRepo.InsertKeepsIndexConsistent` | repository/order/redis.go:31-47 | the insert transaction keeps the index equal to the set of order keys with a value |
| `OrderRepo.DeleteKeepsIndexConsistent` | repository/order/redis.go:73-91 | the delete transaction keeps the index consistent |
| `OrderRepo.ReplaceKeepsIndexConsistent` | repository/order/redis.go:104 | overwriting an existing key keeps the index consistent |
| `OrderRepo.RedisRepo.Insert` | repository/order/redis.go:22-49 | an encode or queue error returns that error and changes nothing; an Exec fault returns an Exec error, with nothing changed if Redis never ran the transaction and the full insert done if it did. On success the key is in the index and in the table, an existing value is not overwritten, nil is still returned, nothing else changes. The invariant is kept on every path |
| `OrderRepo.RedisRepo.InsertFixed` | repository/order/redis.go:33-48 | as Insert (the same encode, queue and Exec errors, and the full insert after an Exec fault once Redis ran it), but a SETNX that did not write returns ErrAlreadyExists (exactly when the key had a value) with the value left as it was; success holds exactly when there was no error and the key was absent, and then the new order is stored under it |
| `OrderRepo.RedisRepo.FindByID` | repository/order/redis.go:51-68 | read-only. An absent key gives ErrNotExists and a transport error a find error. A stored value always gives a decode error: the syntax error when the bytes are not JSON, otherwise the non-pointer target error. The order returned is always the zero Order |
| `OrderRepo.RedisRepo.FindByIdFixed` | repository/order/redis.go:51-68 | read-only. An absent key gives ErrNotExists, and any error comes with the zero Order. A stored value gives its decoding, or the decode error |
| `OrderRepo.RedisRepo.DeleteById` | repository/order/redis.go:70-93 | a queued redis.Nil gives ErrNotExists and another DEL error a delete error, with nothing changed. An SREM error returns nil with nothing deleted. Otherwise nil is returned whether or not the order existed, and the key leaves both the table and the index; on an Exec fault the error is returned, and the key is removed only if Redis ran the transaction. The invariant is kept |
| `OrderRepo.RedisRepo.DeleteByIdFixed` | repository/order/redis.go:70-93 | as DeleteById, but an SREM error is returned, and a DEL that removed nothing gives ErrNotExists (exactly when the key had no value) with the database left as it was when the index is consistent; success means the order existed and its key is now in neither the table nor the index |
| `OrderRepo.RedisRepo.Update` | repository/order/redis.go:95-112 | never touches the index and never creates a key. An encode error changes nothing. A transport error is returned, and the value is replaced only if Redis ran the SET first. With no fault nil is returned whether or not the order exists; the value is replaced exactly when it existed |
| `OrderRepo.RedisRepo.UpdateFixed` | repository/order/redis.go:102-111 | as Update (the same errors, and the value replaced exactly when the request landed and the key existed, including after a fault once Redis ran the SET), but ErrNotExists is returned exactly when the key had no value, and success means that key's value is now the encoded order |
| `OrderRepo.RedisRepo.DecodePage` | repository/order/redis.go:144-156 | the page succeeds exactly when every value decodes. orders[i] is then the decoding of xs[i], in the same order and length. Otherwise the error is the page decode error of the first value that fails |
| `OrderRepo.RedisRepo.FetchPage` | repository/order/redis.go:138-160 | an MGET failure is returned; otherwise the page holds the decoding of each scanned key's value, in scan order, with the given cursor, or the page decode error of the first value that fails |
| `OrderRepo.RedisRepo.FindAll` | repository/order/redis.go:124-161 | a step without keys gives an empty page with cursor 0 and no error, even if the scan failed. Otherwise a scan or MGET error is returned. Otherwise the page has one decoded order per key, in order, and the scan's cursor, and any single decode failure fails the whole page with the page decode error of the first value that fails |
| `OrderRepo.RedisRepo.FindAllFixed` | repository/order/redis.go:124-161 | a scan error is always returned, and on success the cursor is always the scan's, including for an empty step. Otherwise as FindAll: the MGET error, the first value's decode error, or one decoded order per key in scan order |
| `Scenarios.InsertThenFind` | repository/order/redis.go:51-68 | after Insert, FindByID as written fails with a decode error (the target error for well-formed JSON, the syntax error otherwise), and the corrected lookup returns the inserted order |
| `Scenarios.InsertReplyLost` | repository/order/redis.go:45-47 | when the EXEC reply is lost after Redis ran it, Insert returns an Exec error although the order is stored and indexed |
| `Scenarios.InsertTwice` | repository/order/redis.go:33-48 | a second Insert under the same id returns nil and the first order stays stored; InsertFixed reports ErrAlreadyExists |
| `Scenarios.UpdateAbsent` | repository/order/redis.go:102-111 | Update of an id never inserted returns nil, UpdateFixed gives ErrNotExists, and no order appears |
| `Scenarios.DeleteThenFind` | repository/order/redis.go:70-93 | after DeleteById the order is not found; a second DeleteById also returns nil, while DeleteByIdFixed gives ErrNotExists |
| `Scenarios.DeleteWithRemoveError` | repository/order/redis.go:84-92 | with an SREM error DeleteById returns nil yet the order is still found; DeleteByIdFixed returns the error |
| `Scenarios.PageAfterInsert` | repository/order/redis.go:124-161 | after one insert, a scan step returning its key gives a page holding exactly that order and the scan's cursor |
| `Scenarios.EmptyScanStep` | repository/order/redis.go:129-133 | FindAll as written reports an empty step as cursor 0 with no error; FindAllFixed keeps the cursor and reports the scan error |
| `Scenarios.Order42Lifecycle` | repository/order/redis.go:22-112 | order 42 inserted, updated to "shipped" and deleted. Each lookup returns exactly the latest version written, the line items are unchanged, the delete returns nil, and the order is then neither found nor in the index |

## Left out

- The HTTP server, router, process start and signal handling (`application/app.go`, `application/routes.go`, `main.go`): I/O and glue with nothing to verify.
- The go-redis transport, `context` cancellation and deadlines. Every network result is a parameter, so any failure can be chosen.
- Errors that a queued command reports before `Exec`: go-redis reports none, since replies arrive with `Exec`. The model admits any, so the branches that test them are reachable.
- `Redis.TxPipeline.Exec`: Redis EXEC does not roll back when a queued command fails at run time. The model takes a transaction to apply all of its commands or none.
- SSCAN cursor mechanics. The scan step is an input, so `page.Offset` and the count hint `int64(page.Size)` have no effect in the model, and no claim is made that paginating until cursor 0 visits every order.
- `OrderRepo.RedisRepo.FindAll`: requires a consistent index and scan keys taken from it. Under those conditions MGET returns no nil. The panic of `x.(string)` on a nil entry (repository/order/redis.go:147) is not modelled.
- JSON byte layout, UUID and `time.Time` internals: the codec is three arbitrary functions, with no link assumed between the syntax check and decoding, and UUIDs and times are plain values.
- Concurrent calls: each operation is one sequential step on the database.

## Findings

| source | as written | input that shows it | evidently intended | confidence | as-written member | corrected member |
|---|---|---|---|---|---|---|
| repository/order/redis.go:64 | `json.Unmarshal` is given `order` by value. It checks the bytes are JSON first, then rejects the non-pointer target, so every stored order comes back as a decode error | Insert an order, then FindByID of its id | decode into `&order` and return the stored order | high, not executed | `OrderRepo.RedisRepo.FindByID`, shown by `Scenarios.InsertThenFind` | `OrderRepo.RedisRepo.FindByIdFixed` |
| repository/order/redis.go:129-133 | a scan step without keys returns cursor 0 and no error, even when the scan failed | a step from cursor 17 that returns no keys and next cursor 42, or a step that fails | return the scan's error, and the scan's cursor for an empty step, so that only cursor 0 ends the walk | high, not executed | `OrderRepo.RedisRepo.FindAll`, shown by `Scenarios.EmptyScanStep` | `OrderRepo.RedisRepo.FindAllFixed` |
| repository/order/redis.go:84-86 | on an SREM error `Discard` also drops the queued DEL. `Exec` of the empty pipeline then succeeds, so nil is returned and nothing is deleted. Latent: go-redis never reports an error on a queued command, so no real input reaches line 85 today | DeleteById of a stored order when the queued SREM reports an error | return the SREM error | medium, not executed | `OrderRepo.RedisRepo.DeleteById`, shown by `Scenarios.DeleteWithRemoveError` | `OrderRepo.RedisRepo.DeleteByIdFixed` |
| repository/order/redis.go:33-48 | the SETNX reply is never checked, so inserting over an existing order returns nil while the old order stays stored | Insert two orders with the same id | report a conflict when SETNX did not write | medium, not executed | `OrderRepo.RedisRepo.Insert`, shown by `Scenarios.InsertTwice` | `OrderRepo.RedisRepo.InsertFixed` |
| repository/order/redis.go:104-107 | go-redis reports `SET … XX` of an absent key as a false reply with no error, so the redis.Nil test never matches: updating an absent order returns nil and writes nothing | Update of an id never inserted | return ErrNotExists when SET XX did not write | high, not executed | `OrderRepo.RedisRepo.Update`, shown by `Scenarios.UpdateAbsent` | `OrderRepo.RedisRepo.UpdateFixed` |
| repository/order/redis.go:74-78 | a queued DEL carries no error, and DEL of an absent key replies 0, so the redis.Nil test never matches: deleting an absent order returns nil | DeleteById of an id already deleted | return ErrNotExists when DEL removed nothing | high, not executed | `OrderRepo.RedisRepo.DeleteById`, shown by `Scenarios.DeleteThenFind` | `OrderRepo.RedisRepo.DeleteByIdFixed` |
