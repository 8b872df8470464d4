/**
 * The persisted records of the order service (models/order.go): an order with
 * its line items. Library types the repository never looks into (UUIDs and
 * timestamps) are kept as plain values without behaviour.
 */
module Models {
  import opened Wrappers

  /** Go's int64: the type of an order id. */
  newtype int64 = x: int | -0x8000_0000_0000_0000 <= x < 0x8000_0000_0000_0000

  /** Go's uint64: scan cursors and page sizes. */
  newtype uint64 = x: int | 0 <= x < 0x1_0000_0000_0000_0000

  /** A 128-bit UUID, held as its two 64-bit halves. */
  datatype Uuid = Uuid(hi: bv64, lo: bv64)

  /** An instant in time; the repository only stores and returns it. */
  datatype Time = Time(unixNano: int)

  datatype LineItem = LineItem(itemId: Uuid, quantity: nat, price: nat)

  /** An order; a nil *time.Time field is None. */
  datatype Order = Order(
    orderId: int64,
    customerId: Uuid,
    lineItems: seq<LineItem>,
    orderStatus: string,
    createdAt: Option<Time>,
    shippedAt: Option<Time>,
    completedAt: Option<Time>)

  /** The zero value models.Order{} that the repository returns beside an error. */
  const ZeroOrder: Order := Order(0, Uuid(0, 0), [], "", None, None, None)
}
