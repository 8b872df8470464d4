/**
 * Callers of the repository, each on a fresh empty database with no
 * network faults: what a sequence of operations returns, derived only from
 * the operations' contracts. The codec is any codec; where a scenario reads
 * an order back it takes as a hypothesis that the codec decodes what it
 * encoded.
 */
module Scenarios {
  import opened Wrappers
  import opened Models
  import opened Keys
  import opened Redis
  import opened OrderRepo

  predicate RoundTrips(codec: Codec, o: Order) {
    codec.encode(o).Success? && codec.decode(codec.encode(o).value) == Success(o)
  }

  /**
   * Insert then find. The corrected lookup returns the order unchanged; the
   * lookup as written fails to decode, whatever the codec: with a syntax
   * error if the stored bytes are not JSON, else because of the target.
   */
  method InsertThenFind(codec: Codec, o: Order)
    returns (asWritten: Option<RepoError>, found: Order, err: Option<RepoError>)
    requires RoundTrips(codec, o)
    ensures codec.syntaxError(codec.encode(o).value).None? ==> asWritten == Some(DecodeFailed(InvalidTarget))
    ensures codec.syntaxError(codec.encode(o).value).Some? ==>
      asWritten == Some(DecodeFailed(codec.syntaxError(codec.encode(o).value).value))
    ensures err.None? && found == o
  {
    var store := new Store();
    var repo := new RedisRepo(store, codec);
    var inserted := repo.Insert(o, None, None, None);
    var zero;
    zero, asWritten := repo.FindByID(o.orderId, None);
    found, err := repo.FindByIdFixed(o.orderId, None);
  }

  /**
   * Two inserts under one id. As written the second reports success and the
   * first order stays stored; the corrected insert reports the conflict.
   */
  method InsertTwice(codec: Codec, first: Order, second: Order)
    returns (secondErr: Option<RepoError>, fixedErr: Option<RepoError>, found: Order)
    requires first.orderId == second.orderId
    requires RoundTrips(codec, first) && codec.encode(second).Success?
    ensures secondErr.None?
    ensures fixedErr == Some(ErrAlreadyExists)
    ensures found == first
  {
    var store := new Store();
    var repo := new RedisRepo(store, codec);
    var e := repo.Insert(first, None, None, None);
    secondErr := repo.Insert(second, None, None, None);
    fixedErr := repo.InsertFixed(second, None, None, None);
    var findErr;
    found, findErr := repo.FindByIdFixed(first.orderId, None);
  }

  /**
   * Update of an order never inserted. As written it reports success; the
   * corrected update reports ErrNotExists. Neither creates the order.
   */
  method UpdateAbsent(codec: Codec, o: Order)
    returns (updateErr: Option<RepoError>, fixedErr: Option<RepoError>, findErr: Option<RepoError>)
    requires codec.encode(o).Success?
    ensures updateErr.None?
    ensures fixedErr == Some(ErrNotExists)
    ensures findErr == Some(ErrNotExists)
  {
    var store := new Store();
    var repo := new RedisRepo(store, codec);
    updateErr := repo.Update(o, None);
    fixedErr := repo.UpdateFixed(o, None);
    var gone;
    gone, findErr := repo.FindByIdFixed(o.orderId, None);
  }

  /**
   * An insert whose EXEC reply is lost after Redis ran the transaction: the
   * caller gets an error, yet the order is stored and indexed.
   */
  method InsertReplyLost(codec: Codec, o: Order, reason: string)
    returns (insertErr: Option<RepoError>, found: Order, findErr: Option<RepoError>, indexed: bool)
    requires RoundTrips(codec, o)
    ensures insertErr == Some(ExecFailed(Failed(reason)))
    ensures findErr.None? && found == o && indexed
  {
    var store := new Store();
    var repo := new RedisRepo(store, codec);
    insertErr := repo.Insert(o, None, None, Some(Fault(reason, true)));
    found, findErr := repo.FindByIdFixed(o.orderId, None);
    indexed := OrderIdKey(o.orderId) in store.index;
  }

  /**
   * Delete then find: the order is gone. As written a second delete of the
   * same id also succeeds, since DEL of an absent key is not an error; the
   * corrected delete reports ErrNotExists.
   */
  method DeleteThenFind(codec: Codec, o: Order)
    returns (deleteErr: Option<RepoError>, findErr: Option<RepoError>, againErr: Option<RepoError>, fixedErr: Option<RepoError>)
    requires codec.encode(o).Success?
    ensures deleteErr.None? && findErr == Some(ErrNotExists) && againErr.None?
    ensures fixedErr == Some(ErrNotExists)
  {
    var store := new Store();
    var repo := new RedisRepo(store, codec);
    var e := repo.Insert(o, None, None, None);
    deleteErr := repo.DeleteById(o.orderId, None, None, None);
    var gone;
    gone, findErr := repo.FindByIdFixed(o.orderId, None);
    againErr := repo.DeleteById(o.orderId, None, None, None);
    fixedErr := repo.DeleteByIdFixed(o.orderId, None, None, None);
  }

  /**
   * An SREM error during delete. As written the delete reports success and
   * the order can still be found; the corrected delete reports the error.
   */
  method DeleteWithRemoveError(codec: Codec, o: Order, e: StoreError)
    returns (deleteErr: Option<RepoError>, found: Order, fixedErr: Option<RepoError>)
    requires RoundTrips(codec, o)
    ensures deleteErr.None? && found == o
    ensures fixedErr == Some(RemoveFromSetFailed(e))
  {
    var store := new Store();
    var repo := new RedisRepo(store, codec);
    var inserted := repo.Insert(o, None, None, None);
    deleteErr := repo.DeleteById(o.orderId, None, Some(e), None);
    var findErr;
    found, findErr := repo.FindByIdFixed(o.orderId, None);
    fixedErr := repo.DeleteByIdFixed(o.orderId, None, Some(e), None);
  }

  /** A page after one insert, when the scan step returns its key: exactly that order, and the scan's cursor. */
  method PageAfterInsert(codec: Codec, o: Order, page: FindAllPage, next: uint64)
    returns (res: FindResult, err: Option<RepoError>)
    requires RoundTrips(codec, o)
    ensures err.None? && res == FindResult([o], next)
  {
    var store := new Store();
    var repo := new RedisRepo(store, codec);
    var e := repo.Insert(o, None, None, None);
    res, err := repo.FindAll(page, ScanStep([OrderIdKey(o.orderId)], next, None), None);
  }

  /**
   * A scan step that returns no keys. As written the page always carries
   * cursor 0 (the "scan complete" value) and no error, even when the scan
   * failed or more members remain; the corrected FindAll keeps the scan's
   * cursor and returns the scan's error.
   */
  method EmptyScanStep(codec: Codec, page: FindAllPage, next: uint64, scanErr: Option<StoreError>)
    returns (asWritten: FindResult, asWrittenErr: Option<RepoError>, fixed: FindResult, fixedErr: Option<RepoError>)
    ensures asWritten == FindResult([], 0) && asWrittenErr.None?
    ensures scanErr.Some? ==> fixedErr == Some(ScanFailed(scanErr.value))
    ensures scanErr.None? ==> fixedErr.None? && fixed == FindResult([], next)
  {
    var store := new Store();
    var repo := new RedisRepo(store, codec);
    var step := ScanStep([], next, scanErr);
    asWritten, asWrittenErr := repo.FindAll(page, step, None);
    fixed, fixedErr := repo.FindAllFixed(page, step, None);
  }

  /**
   * Order 42 through its life: inserted as "created" with two line items,
   * updated to "shipped" with a ship time, deleted. Each lookup sees the
   * latest version, the line items never change, and after the delete the
   * order is neither found nor in the index, so no scan step can list it.
   */
  method Order42Lifecycle(codec: Codec, customer: Uuid, first: LineItem, second: LineItem, created: Time, shipped: Time)
    returns (afterInsert: Order, afterUpdate: Order, deleteErr: Option<RepoError>, afterDelete: Option<RepoError>, indexed: bool)
    requires RoundTrips(codec, Order(42, customer, [first, second], "created", Some(created), None, None))
    requires RoundTrips(codec, Order(42, customer, [first, second], "shipped", Some(created), Some(shipped), None))
    ensures afterInsert == Order(42, customer, [first, second], "created", Some(created), None, None)
    ensures afterUpdate == Order(42, customer, [first, second], "shipped", Some(created), Some(shipped), None)
    ensures afterUpdate.orderStatus == "shipped" && afterUpdate.shippedAt == Some(shipped)
    ensures afterUpdate.lineItems == afterInsert.lineItems
    ensures deleteErr.None? && afterDelete == Some(ErrNotExists) && !indexed
  {
    var store := new Store();
    var repo := new RedisRepo(store, codec);
    var order := Order(42, customer, [first, second], "created", Some(created), None, None);
    var e := repo.Insert(order, None, None, None);
    afterInsert, e := repo.FindByIdFixed(42, None);
    var update := order.(orderStatus := "shipped", shippedAt := Some(shipped));
    e := repo.Update(update, None);
    afterUpdate, e := repo.FindByIdFixed(42, None);
    deleteErr := repo.DeleteById(42, None, None, None);
    var gone;
    gone, afterDelete := repo.FindByIdFixed(42, None);
    indexed := OrderIdKey(42) in store.index;
  }
}
