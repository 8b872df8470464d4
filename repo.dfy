/**
 * RedisRepo (repository/order/redis.go): orders kept in Redis under
 * "order:<id>", with the set "orders" indexing the live order keys.
 *
 * Every operation is modelled as the Go code is written. Where that differs
 * from what the code evidently means to do, a corrected variant (suffix
 * `Fixed`) sits beside it and carries the intended property.
 *
 * Results of the network round trips are inputs. A `fault` stands for a
 * transport error; on a write it also says whether Redis ran the request
 * before the reply was lost. The `...Err` parameters stand for the error that a
 * queued command reports before Exec (in go-redis always nil; the model
 * admits any).
 */
module OrderRepo {
  import opened Wrappers
  import opened Models
  import opened Keys
  import opened Redis

  /**
   * Why encoding or decoding an order failed: InvalidTarget is json.Unmarshal
   * refusing a non-pointer target, Malformed any other failure (a syntax
   * error, a field of the wrong type, an unsupported value).
   */
  datatype CodecError = InvalidTarget | Malformed(reason: string)

  /**
   * The JSON codec: encoding and decoding, which may fail, and the syntax
   * check json.Unmarshal runs over its input before anything else (None for
   * well-formed JSON). Nothing is assumed about how the three relate.
   */
  datatype Codec = Codec(
    encode: Order -> Result<string, CodecError>,
    decode: string -> Result<Order, CodecError>,
    syntaxError: string -> Option<CodecError>)

  /** The errors the repository returns, one per distinct message of the source; ErrNotExists is the sentinel. */
  datatype RepoError =
    | ErrNotExists
    | EncodeFailed(codecCause: CodecError)      // "failed to encoder order"
    | InsertFailed(storeCause: StoreError)      // "failed to insert order"
    | AddToSetFailed(storeCause: StoreError)    // "failed to add orders to set"
    | ExecFailed(storeCause: StoreError)        // "failed to execute transaction"
    | FindFailed(storeCause: StoreError)        // "failed to find order by id"
    | DecodeFailed(codecCause: CodecError)      // "failed to decode order"
    | PageDecodeFailed(codecCause: CodecError)  // "failed to decode order json :"
    | DeleteFailed(storeCause: StoreError)      // "failed to delete order by id"
    | UpdateFailed(storeCause: StoreError)      // "failed to update order"
    | ScanFailed(storeCause: StoreError)        // "failed to get order ids"
    | MGetFailed(storeCause: StoreError)        // "failed to get orders"
    | ErrAlreadyExists                          // corrected Insert only
    | RemoveFromSetFailed(storeCause: StoreError) // corrected DeleteById only

  /** FindAllPage: Offset is the scan cursor to resume from, Size the count hint. */
  datatype FindAllPage = FindAllPage(size: uint64, offset: uint64)

  /** FindResult: one page of orders and the cursor to continue from (0 once the scan is complete). */
  datatype FindResult = FindResult(orders: seq<Order>, cursor: uint64)

  /** The zero value FindResult{} returned beside an error. */
  const ZeroResult: FindResult := FindResult([], 0)

  /**
   * The reply of one SSCAN step over "orders" from the page's offset: some
   * members of the set, the next cursor, and the error the client reports.
   * How the keys are chosen is not modelled.
   */
  datatype ScanStep = ScanStep(keys: seq<string>, cursor: uint64, err: Option<StoreError>)

  /**
   * The index holds exactly the order keys that have a value. The index key
   * itself is not an order key (IndexKeyIsNotAnOrderKey), which is why the
   * index can be kept apart from the table of values in State.
   */
  predicate IndexConsistent(st: State) {
    st.index == set k | k in st.values && KeyPrefix <= k
  }

  /** The transaction Insert queues, run on a database. */
  lemma {:induction false} InsertBatch(st: State, key: string, data: string)
    ensures Run(st, [Command.SetNX(key, data), Command.SAdd(key)]) ==
      Applied(
        State(if key in st.values then st.values else st.values[key := data], st.index + {key}),
        [Flag(key !in st.values), Count(if key in st.index then 0 else 1)])
  {
    var cmds := [Command.SetNX(key, data), Command.SAdd(key)];
    var first := Step(st, cmds[0]);
    var second := Step(first.0, cmds[1]);
    assert cmds[1..] == [cmds[1]] && cmds[1..][1..] == [];
    assert Run(first.0, cmds[1..]) == Applied(second.0, [second.1]);
  }

  /** The transaction DeleteById queues, run on a database: DEL replies how many keys it removed. */
  lemma {:induction false} DeleteBatch(st: State, key: string)
    ensures Run(st, [Command.Del(key), Command.SRem(key)]) ==
      Applied(
        State(st.values - {key}, st.index - {key}),
        [Count(if key in st.values then 1 else 0), Count(if key in st.index then 1 else 0)])
  {
    var cmds := [Command.Del(key), Command.SRem(key)];
    var first := Step(st, cmds[0]);
    var second := Step(first.0, cmds[1]);
    assert cmds[1..] == [cmds[1]] && cmds[1..][1..] == [];
    assert Run(first.0, cmds[1..]) == Applied(second.0, [second.1]);
  }

  /** Creating an order key and adding it to the index keeps the index consistent. */
  lemma InsertKeepsIndexConsistent(st: State, key: string, data: string)
    requires IndexConsistent(st) && KeyPrefix <= key
    ensures IndexConsistent(Run(st, [Command.SetNX(key, data), Command.SAdd(key)]).state)
  {
    InsertBatch(st, key, data);
  }

  /** Deleting a key together with its index entry keeps the index consistent. */
  lemma DeleteKeepsIndexConsistent(st: State, key: string)
    requires IndexConsistent(st)
    ensures IndexConsistent(Run(st, [Command.Del(key), Command.SRem(key)]).state)
  {
    DeleteBatch(st, key);
  }

  /** Overwriting an existing key keeps the index consistent. */
  lemma ReplaceKeepsIndexConsistent(st: State, key: string, data: string)
    requires IndexConsistent(st) && key in st.values
    ensures IndexConsistent(State(st.values[key := data], st.index))
  {
    assert st.values[key := data].Keys == st.values.Keys;
  }

  class RedisRepo {
    const client: Store
    const codec: Codec

    constructor (client: Store, codec: Codec)
      ensures this.client == client && this.codec == codec
    {
      this.client := client;
      this.codec := codec;
    }

    ghost predicate Valid()
      reads client
    {
      IndexConsistent(client.Snapshot())
    }

    /**
     * Insert: SETNX the encoded order and SADD its key to the index in one
     * transaction. The SETNX reply is never looked at, so inserting over an
     * existing order succeeds and leaves the stored value as it was. An Exec
     * fault is reported whether or not the transaction ran before it.
     */
    method Insert(order: Order, setNXErr: Option<StoreError>, sAddErr: Option<StoreError>, execFault: Option<Fault>)
      returns (err: Option<RepoError>)
      modifies client
      ensures old(Valid()) ==> Valid()
      ensures codec.encode(order).Failure? ==> err == Some(EncodeFailed(codec.encode(order).error))
      ensures codec.encode(order).Success? && setNXErr.Some? ==> err == Some(InsertFailed(setNXErr.value))
      ensures codec.encode(order).Success? && setNXErr.None? && sAddErr.Some? ==>
        err == Some(AddToSetFailed(sAddErr.value))
      ensures codec.encode(order).Success? && setNXErr.None? && sAddErr.None? && execFault.Some? ==>
        err == Some(ExecFailed(Failed(execFault.value.reason)))
      ensures err.None? <==> codec.encode(order).Success? && setNXErr.None? && sAddErr.None? && execFault.None?
      ensures err.Some? && !(err.value.ExecFailed? && Landed(execFault)) ==> unchanged(client)
      ensures (err.None? || err.value.ExecFailed?) && Landed(execFault) ==>
        var key := OrderIdKey(order.orderId);
        && client.index == old(client.index) + {key}
        && client.values == if key in old(client.values) then old(client.values)
                            else old(client.values)[key := codec.encode(order).value]
    {
      var data := codec.encode(order);
      if data.Failure? {
        return Some(EncodeFailed(data.error));
      }
      var key := OrderIdKey(order.orderId);
      ghost var before := client.Snapshot();
      var txn := client.TxPipeline();
      txn.SetNX(key, data.value);
      if setNXErr.Some? {
        txn.Discard();
        return Some(InsertFailed(setNXErr.value));
      }
      txn.SAdd(key);
      if sAddErr.Some? {
        txn.Discard();
        return Some(AddToSetFailed(sAddErr.value));
      }
      InsertBatch(before, key, data.value);
      if IndexConsistent(before) {
        InsertKeepsIndexConsistent(before, key, data.value);
      }
      var res := txn.Exec(execFault);
      if res.Failure? {
        return Some(ExecFailed(res.error));
      }
      return None;
    }

    /**
     * Insert as evidently intended: after the transaction, a SETNX that did
     * not write is reported as ErrAlreadyExists, so success means the order
     * just encoded is the one stored.
     */
    method InsertFixed(order: Order, setNXErr: Option<StoreError>, sAddErr: Option<StoreError>, execFault: Option<Fault>)
      returns (err: Option<RepoError>)
      modifies client
      ensures old(Valid()) ==> Valid()
      ensures codec.encode(order).Failure? ==> err == Some(EncodeFailed(codec.encode(order).error))
      ensures codec.encode(order).Success? && setNXErr.Some? ==> err == Some(InsertFailed(setNXErr.value))
      ensures codec.encode(order).Success? && setNXErr.None? && sAddErr.Some? ==>
        err == Some(AddToSetFailed(sAddErr.value))
      ensures codec.encode(order).Success? && setNXErr.None? && sAddErr.None? && execFault.Some? ==>
        err == Some(ExecFailed(Failed(execFault.value.reason)))
      ensures err.None? <==>
        codec.encode(order).Success? && setNXErr.None? && sAddErr.None? && execFault.None?
        && OrderIdKey(order.orderId) !in old(client.values)
      ensures err.Some? && !(err.value.ExecFailed? && Landed(execFault)) && err != Some(ErrAlreadyExists) ==>
        unchanged(client)
      ensures err.Some? && err.value.ExecFailed? && Landed(execFault) ==>
        var key := OrderIdKey(order.orderId);
        && client.index == old(client.index) + {key}
        && client.values == if key in old(client.values) then old(client.values)
                            else old(client.values)[key := codec.encode(order).value]
      ensures err == Some(ErrAlreadyExists) <==>
        codec.encode(order).Success? && setNXErr.None? && sAddErr.None? && execFault.None?
        && OrderIdKey(order.orderId) in old(client.values)
      ensures err == Some(ErrAlreadyExists) ==>
        client.values == old(client.values) && client.index == old(client.index) + {OrderIdKey(order.orderId)}
      ensures err.None? ==>
        var key := OrderIdKey(order.orderId);
        && key !in old(client.values)
        && client.values == old(client.values)[key := codec.encode(order).value]
        && client.index == old(client.index) + {key}
    {
      var data := codec.encode(order);
      if data.Failure? {
        return Some(EncodeFailed(data.error));
      }
      var key := OrderIdKey(order.orderId);
      ghost var before := client.Snapshot();
      var txn := client.TxPipeline();
      txn.SetNX(key, data.value);
      if setNXErr.Some? {
        txn.Discard();
        return Some(InsertFailed(setNXErr.value));
      }
      txn.SAdd(key);
      if sAddErr.Some? {
        txn.Discard();
        return Some(AddToSetFailed(sAddErr.value));
      }
      InsertBatch(before, key, data.value);
      if IndexConsistent(before) {
        InsertKeepsIndexConsistent(before, key, data.value);
      }
      var res := txn.Exec(execFault);
      if res.Failure? {
        return Some(ExecFailed(res.error));
      }
      if res.value[0] == Flag(false) {
        return Some(ErrAlreadyExists);
      }
      return None;
    }

    /**
     * FindByID: GET the order's key. The decode step passes the target by
     * value. json.Unmarshal first checks that the bytes are JSON and reports
     * a syntax error if not; well-formed input then fails on the non-pointer
     * target. Either way a stored order is never returned.
     */
    method FindByID(id: int64, fault: Option<string>) returns (order: Order, err: Option<RepoError>)
      ensures err.Some?
      ensures order == ZeroOrder
      ensures fault.Some? ==> err == Some(FindFailed(Failed(fault.value)))
      ensures fault.None? && OrderIdKey(id) !in client.values ==> err == Some(ErrNotExists)
      ensures fault.None? && OrderIdKey(id) in client.values ==>
        match codec.syntaxError(client.values[OrderIdKey(id)])
        case Some(e) => err == Some(DecodeFailed(e))
        case None => err == Some(DecodeFailed(InvalidTarget))
    {
      var key := OrderIdKey(id);
      var value := client.Get(key, fault);
      if value == Failure(Nil) {
        return ZeroOrder, Some(ErrNotExists);
      } else if value.Failure? {
        return ZeroOrder, Some(FindFailed(value.error));
      }
      var syntax := codec.syntaxError(value.value);
      if syntax.Some? {
        return ZeroOrder, Some(DecodeFailed(syntax.value));
      }
      return ZeroOrder, Some(DecodeFailed(InvalidTarget));
    }

    /** FindByID as evidently intended: the stored value is decoded into the order. */
    method FindByIdFixed(id: int64, fault: Option<string>) returns (order: Order, err: Option<RepoError>)
      ensures err.Some? ==> order == ZeroOrder
      ensures fault.Some? ==> err == Some(FindFailed(Failed(fault.value)))
      ensures fault.None? && OrderIdKey(id) !in client.values ==> err == Some(ErrNotExists)
      ensures fault.None? && OrderIdKey(id) in client.values ==>
        match codec.decode(client.values[OrderIdKey(id)])
        case Success(o) => err.None? && order == o
        case Failure(e) => err == Some(DecodeFailed(e))
    {
      var key := OrderIdKey(id);
      var value := client.Get(key, fault);
      if value == Failure(Nil) {
        return ZeroOrder, Some(ErrNotExists);
      } else if value.Failure? {
        return ZeroOrder, Some(FindFailed(value.error));
      }
      var decoded := codec.decode(value.value);
      if decoded.Failure? {
        return ZeroOrder, Some(DecodeFailed(decoded.error));
      }
      return decoded.value, None;
    }

    /**
     * DeleteById: DEL the key and SREM it from the index in one transaction.
     * The DEL reply is never looked at, so deleting an absent order succeeds.
     * An SREM error is not returned; the Discard it triggers also drops the
     * DEL, so the empty transaction succeeds and nothing is deleted.
     */
    method DeleteById(id: int64, delErr: Option<StoreError>, sRemErr: Option<StoreError>, execFault: Option<Fault>)
      returns (err: Option<RepoError>)
      modifies client
      ensures old(Valid()) ==> Valid()
      ensures delErr == Some(Nil) ==> err == Some(ErrNotExists) && unchanged(client)
      ensures delErr.Some? && delErr != Some(Nil) ==> err == Some(DeleteFailed(delErr.value)) && unchanged(client)
      ensures delErr.None? && sRemErr.Some? ==> err.None? && unchanged(client)
      ensures delErr.None? && sRemErr.None? && execFault.Some? ==> err == Some(ExecFailed(Failed(execFault.value.reason)))
      ensures delErr.None? && sRemErr.None? && execFault.None? ==> err.None?
      ensures delErr.None? && sRemErr.None? && !Landed(execFault) ==> unchanged(client)
      ensures delErr.None? && sRemErr.None? && Landed(execFault) ==>
        var key := OrderIdKey(id);
        && client.values == old(client.values) - {key}
        && client.index == old(client.index) - {key}
    {
      var key := OrderIdKey(id);
      ghost var before := client.Snapshot();
      var txn := client.TxPipeline();
      txn.Del(key);
      if delErr == Some(Nil) {
        txn.Discard();
        return Some(ErrNotExists);
      } else if delErr.Some? {
        txn.Discard();
        return Some(DeleteFailed(delErr.value));
      }
      txn.SRem(key);
      if sRemErr.Some? {
        txn.Discard();
      } else {
        DeleteBatch(before, key);
        if IndexConsistent(before) {
          DeleteKeepsIndexConsistent(before, key);
        }
      }
      var res := txn.Exec(execFault);
      if res.Failure? {
        return Some(ExecFailed(res.error));
      }
      return None;
    }

    /**
     * DeleteById as evidently intended: an SREM error is returned, and a DEL
     * that removed nothing is reported as ErrNotExists, so success means the
     * order existed and is now gone.
     */
    method DeleteByIdFixed(id: int64, delErr: Option<StoreError>, sRemErr: Option<StoreError>, execFault: Option<Fault>)
      returns (err: Option<RepoError>)
      modifies client
      ensures old(Valid()) ==> Valid()
      ensures delErr.Some? || sRemErr.Some? || !Landed(execFault) ==> unchanged(client)
      ensures delErr.Some? && delErr != Some(Nil) ==> err == Some(DeleteFailed(delErr.value))
      ensures delErr.None? && sRemErr.Some? ==> err == Some(RemoveFromSetFailed(sRemErr.value))
      ensures delErr.None? && sRemErr.None? && execFault.Some? ==> err == Some(ExecFailed(Failed(execFault.value.reason)))
      ensures err == Some(ErrNotExists) <==>
        delErr == Some(Nil) || (delErr.None? && sRemErr.None? && execFault.None? && OrderIdKey(id) !in old(client.values))
      ensures err.None? <==> delErr.None? && sRemErr.None? && execFault.None? && OrderIdKey(id) in old(client.values)
      ensures old(Valid()) && err == Some(ErrNotExists) ==>
        client.values == old(client.values) && client.index == old(client.index)
      ensures delErr.None? && sRemErr.None? && Landed(execFault) ==>
        var key := OrderIdKey(id);
        && key !in client.values && key !in client.index
        && client.values == old(client.values) - {key}
        && client.index == old(client.index) - {key}
    {
      var key := OrderIdKey(id);
      ghost var before := client.Snapshot();
      var txn := client.TxPipeline();
      txn.Del(key);
      if delErr == Some(Nil) {
        txn.Discard();
        return Some(ErrNotExists);
      } else if delErr.Some? {
        txn.Discard();
        return Some(DeleteFailed(delErr.value));
      }
      txn.SRem(key);
      if sRemErr.Some? {
        txn.Discard();
        return Some(RemoveFromSetFailed(sRemErr.value));
      }
      DeleteBatch(before, key);
      if IndexConsistent(before) {
        DeleteKeepsIndexConsistent(before, key);
      }
      var res := txn.Exec(execFault);
      if res.Failure? {
        return Some(ExecFailed(res.error));
      }
      if res.value[0] == Count(0) {
        assert key !in before.values && before.values - {key} == before.values;
        if IndexConsistent(before) {
          assert before.index - {key} == before.index;
        }
        return Some(ErrNotExists);
      }
      return None;
    }

    /**
     * Update: SET ... XX the encoded order, so an absent order is never
     * created and the index is never touched. The client reports SET XX on
     * an absent key as a false reply with no error, and the reply is never
     * looked at, so the redis.Nil test of the source never matches and
     * updating an absent order returns nil.
     */
    method Update(order: Order, fault: Option<Fault>) returns (err: Option<RepoError>)
      modifies client
      ensures old(Valid()) ==> Valid()
      ensures client.index == old(client.index)
      ensures client.values.Keys == old(client.values).Keys
      ensures codec.encode(order).Failure? ==> err == Some(EncodeFailed(codec.encode(order).error))
      ensures codec.encode(order).Success? && fault.Some? ==> err == Some(UpdateFailed(Failed(fault.value.reason)))
      ensures err.None? <==> codec.encode(order).Success? && fault.None?
      ensures client.values ==
        var key := OrderIdKey(order.orderId);
        if codec.encode(order).Success? && Landed(fault) && key in old(client.values)
        then old(client.values)[key := codec.encode(order).value]
        else old(client.values)
    {
      var data := codec.encode(order);
      if data.Failure? {
        return Some(EncodeFailed(data.error));
      }
      var key := OrderIdKey(order.orderId);
      ghost var before := client.Snapshot();
      if IndexConsistent(before) && key in before.values {
        ReplaceKeepsIndexConsistent(before, key, data.value);
      }
      var res := client.SetXX(key, data.value, fault);
      if res.Failure? {
        // The error is never redis.Nil here (see SetXX), so ErrNotExists is not returned.
        return Some(UpdateFailed(res.error));
      }
      return None;
    }

    /** Update as evidently intended: a SET XX that did not write is reported as ErrNotExists. */
    method UpdateFixed(order: Order, fault: Option<Fault>) returns (err: Option<RepoError>)
      modifies client
      ensures old(Valid()) ==> Valid()
      ensures client.index == old(client.index)
      ensures client.values.Keys == old(client.values).Keys
      ensures codec.encode(order).Failure? ==> err == Some(EncodeFailed(codec.encode(order).error))
      ensures codec.encode(order).Success? && fault.Some? ==> err == Some(UpdateFailed(Failed(fault.value.reason)))
      ensures err == Some(ErrNotExists) <==>
        codec.encode(order).Success? && fault.None? && OrderIdKey(order.orderId) !in old(client.values)
      ensures err.None? <==>
        codec.encode(order).Success? && fault.None? && OrderIdKey(order.orderId) in old(client.values)
      ensures err.None? ==> client.values == old(client.values)[OrderIdKey(order.orderId) := codec.encode(order).value]
      ensures err.Some? && !(err.value.UpdateFailed? && Landed(fault)) ==> unchanged(client)
      ensures client.values ==
        var key := OrderIdKey(order.orderId);
        if codec.encode(order).Success? && Landed(fault) && key in old(client.values)
        then old(client.values)[key := codec.encode(order).value]
        else old(client.values)
    {
      var data := codec.encode(order);
      if data.Failure? {
        return Some(EncodeFailed(data.error));
      }
      var key := OrderIdKey(order.orderId);
      ghost var before := client.Snapshot();
      if IndexConsistent(before) && key in before.values {
        ReplaceKeepsIndexConsistent(before, key, data.value);
      }
      var res := client.SetXX(key, data.value, fault);
      if res.Failure? {
        return Some(UpdateFailed(res.error));
      }
      if !res.value {
        return Some(ErrNotExists);
      }
      return None;
    }

    /**
     * The loop of FindAll: decodes the MGET replies into a preallocated
     * array, slot by slot, and gives up at the first value that does not
     * decode. Every reply must be a string (x.(string) panics on nil).
     */
    method DecodePage(xs: seq<Option<string>>) returns (orders: seq<Order>, err: Option<RepoError>)
      requires forall i :: 0 <= i < |xs| ==> xs[i].Some?
      ensures err.None? <==> forall i :: 0 <= i < |xs| ==> codec.decode(xs[i].value).Success?
      ensures err.None? ==>
        && |orders| == |xs|
        && forall i :: 0 <= i < |xs| ==> codec.decode(xs[i].value) == Success(orders[i])
      ensures err.Some? ==>
        && orders == []
        && exists i :: 0 <= i < |xs| && codec.decode(xs[i].value).Failure?
             && err == Some(PageDecodeFailed(codec.decode(xs[i].value).error))
             && forall j :: 0 <= j < i ==> codec.decode(xs[j].value).Success?
    {
      var slots := new Order[|xs|](_ => ZeroOrder);
      var i := 0;
      while i < |xs|
        invariant 0 <= i <= |xs|
        invariant forall j :: 0 <= j < i ==> codec.decode(xs[j].value) == Success(slots[j])
      {
        var decoded := codec.decode(xs[i].value);
        if decoded.Failure? {
          return [], Some(PageDecodeFailed(decoded.error));
        }
        slots[i] := decoded.value;
        i := i + 1;
      }
      return slots[..], None;
    }

    /**
     * FindAll: one SSCAN step, then MGET of the keys it returned and a
     * decode of each value. A step without keys yields an empty page with
     * cursor 0 and no error, whatever the scan reported.
     * The requires are what keeps MGET from returning nil for a key:
     * the index is consistent and the scan returns members of the index.
     */
    method FindAll(page: FindAllPage, scan: ScanStep, mgetFault: Option<string>) returns (res: FindResult, err: Option<RepoError>)
      requires Valid()
      requires forall i :: 0 <= i < |scan.keys| ==> scan.keys[i] in client.index
      ensures scan.keys == [] ==> res == FindResult([], 0) && err.None?
      ensures scan.keys != [] && scan.err.Some? ==> err == Some(ScanFailed(scan.err.value))
      ensures scan.keys != [] && scan.err.None? && mgetFault.Some? ==> err == Some(MGetFailed(Failed(mgetFault.value)))
      ensures err.Some? ==> res == ZeroResult
      ensures scan.keys != [] && scan.err.None? && mgetFault.None? ==>
        (err.None? <==> forall i :: 0 <= i < |scan.keys| ==> codec.decode(client.values[scan.keys[i]]).Success?)
      ensures scan.keys != [] && scan.err.None? && mgetFault.None? && err.Some? ==>
        exists i :: 0 <= i < |scan.keys| && codec.decode(client.values[scan.keys[i]]).Failure?
          && err == Some(PageDecodeFailed(codec.decode(client.values[scan.keys[i]]).error))
          && forall j :: 0 <= j < i ==> codec.decode(client.values[scan.keys[j]]).Success?
      ensures scan.keys != [] && err.None? ==>
        && res.cursor == scan.cursor
        && |res.orders| == |scan.keys|
        && forall i :: 0 <= i < |scan.keys| ==> codec.decode(client.values[scan.keys[i]]) == Success(res.orders[i])
    {
      var keys, cursor, scanErr := scan.keys, scan.cursor, scan.err;
      if |keys| == 0 {
        return FindResult([], 0), None;
      }
      if scanErr.Some? {
        return ZeroResult, Some(ScanFailed(scanErr.value));
      }
      res, err := FetchPage(keys, cursor, mgetFault);
    }

    /**
     * FindAll as evidently intended: a scan error is returned even when no
     * keys came back, and an empty step keeps the scan's cursor, so only
     * cursor 0 means the enumeration is complete.
     */
    method FindAllFixed(page: FindAllPage, scan: ScanStep, mgetFault: Option<string>) returns (res: FindResult, err: Option<RepoError>)
      requires Valid()
      requires forall i :: 0 <= i < |scan.keys| ==> scan.keys[i] in client.index
      ensures scan.err.Some? ==> err == Some(ScanFailed(scan.err.value))
      ensures scan.keys == [] && scan.err.None? ==> res == FindResult([], scan.cursor) && err.None?
      ensures scan.keys != [] && scan.err.None? && mgetFault.Some? ==> err == Some(MGetFailed(Failed(mgetFault.value)))
      ensures scan.keys != [] && scan.err.None? && mgetFault.None? && err.Some? ==>
        exists i :: 0 <= i < |scan.keys| && codec.decode(client.values[scan.keys[i]]).Failure?
          && err == Some(PageDecodeFailed(codec.decode(client.values[scan.keys[i]]).error))
          && forall j :: 0 <= j < i ==> codec.decode(client.values[scan.keys[j]]).Success?
      ensures err.None? ==> res.cursor == scan.cursor
      ensures err.Some? ==> res == ZeroResult
      ensures scan.keys != [] && scan.err.None? && mgetFault.None? ==>
        (err.None? <==> forall i :: 0 <= i < |scan.keys| ==> codec.decode(client.values[scan.keys[i]]).Success?)
      ensures err.None? ==>
        && |res.orders| == |scan.keys|
        && forall i :: 0 <= i < |scan.keys| ==> codec.decode(client.values[scan.keys[i]]) == Success(res.orders[i])
    {
      if scan.err.Some? {
        return ZeroResult, Some(ScanFailed(scan.err.value));
      }
      if |scan.keys| == 0 {
        return FindResult([], scan.cursor), None;
      }
      res, err := FetchPage(scan.keys, scan.cursor, mgetFault);
    }

    /** The common tail of FindAll: MGET the scanned keys and decode every value. */
    method FetchPage(keys: seq<string>, cursor: uint64, mgetFault: Option<string>) returns (res: FindResult, err: Option<RepoError>)
      requires Valid()
      requires forall i :: 0 <= i < |keys| ==> keys[i] in client.index
      ensures mgetFault.Some? ==> err == Some(MGetFailed(Failed(mgetFault.value)))
      ensures err.Some? ==> res == ZeroResult
      ensures mgetFault.None? ==>
        (err.None? <==> forall i :: 0 <= i < |keys| ==> codec.decode(client.values[keys[i]]).Success?)
      ensures mgetFault.None? && err.Some? ==>
        exists i :: 0 <= i < |keys| && codec.decode(client.values[keys[i]]).Failure?
          && err == Some(PageDecodeFailed(codec.decode(client.values[keys[i]]).error))
          && forall j :: 0 <= j < i ==> codec.decode(client.values[keys[j]]).Success?
      ensures err.None? ==>
        && res.cursor == cursor
        && |res.orders| == |keys|
        && forall i :: 0 <= i < |keys| ==> codec.decode(client.values[keys[i]]) == Success(res.orders[i])
    {
      var xs := client.MGet(keys, mgetFault);
      if xs.Failure? {
        return ZeroResult, Some(MGetFailed(xs.error));
      }
      var orders, decodeErr := DecodePage(xs.value);
      if decodeErr.Some? {
        return ZeroResult, decodeErr;
      }
      return FindResult(orders, cursor), None;
    }
  }
}
