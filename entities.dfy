/** The rows of the relational store and the store itself. */
module Entities {
  import opened Common
  import opened Tables

  datatype OrderStatus = Pending | Preparing | OnTheWay | Delivered | Cancelled

  function StatusName(s: OrderStatus): string {
    match s
    case Pending => "pending"
    case Preparing => "preparing"
    case OnTheWay => "on_the_way"
    case Delivered => "delivered"
    case Cancelled => "cancelled"
  }

  /** A user row; `role` is the stored text. */
  datatype User = User(id: int, name: string, email: string, role: string, active: bool, passwordHash: string)

  datatype Restaurant = Restaurant(id: int, userId: int, name: string, description: Option<string>)

  datatype Branch = Branch(id: int, restaurantId: int, address: string, city: string,
                           avgWaitingTime: Option<int>, active: bool)

  datatype Menu = Menu(id: int, branchId: int, name: string, active: bool)

  /** Prices are integer cents. */
  datatype MenuItem = MenuItem(id: int, menuId: int, name: string, description: Option<string>,
                               price: int, available: bool)

  /** The timestamp columns a transition may set. */
  datatype StampColumn = AcceptedAt | PreparedAt | SentAt | DeliveredAt | PaidAt | CancelledAt

  datatype Stamps = Stamps(acceptedAt: Option<Time>, preparedAt: Option<Time>, sentAt: Option<Time>,
                           deliveredAt: Option<Time>, paidAt: Option<Time>, cancelledAt: Option<Time>)

  const NoStamps := Stamps(None, None, None, None, None, None)

  function ColumnName(c: StampColumn): string {
    match c
    case AcceptedAt => "accepted_at"
    case PreparedAt => "prepared_at"
    case SentAt => "sent_at"
    case DeliveredAt => "delivered_at"
    case PaidAt => "paid_at"
    case CancelledAt => "cancelled_at"
  }

  function Stamp(s: Stamps, c: StampColumn): Option<Time> {
    match c
    case AcceptedAt => s.acceptedAt
    case PreparedAt => s.preparedAt
    case SentAt => s.sentAt
    case DeliveredAt => s.deliveredAt
    case PaidAt => s.paidAt
    case CancelledAt => s.cancelledAt
  }

  /** Sets one timestamp column and leaves the others as they were. */
  function SetStamp(s: Stamps, c: StampColumn, t: Time): (r: Stamps)
    ensures Stamp(r, c) == Some(t)
    ensures forall d :: d != c ==> Stamp(r, d) == Stamp(s, d)
  {
    match c
    case AcceptedAt => s.(acceptedAt := Some(t))
    case PreparedAt => s.(preparedAt := Some(t))
    case SentAt => s.(sentAt := Some(t))
    case DeliveredAt => s.(deliveredAt := Some(t))
    case PaidAt => s.(paidAt := Some(t))
    case CancelledAt => s.(cancelledAt := Some(t))
  }

  /** An order row. `id` is the internal serial key, `publicId` the UUID
      callers address it by; `total` is in cents. */
  datatype Order = Order(id: int, publicId: string, customerId: int, branchId: int,
                         deliveryAddress: string, status: OrderStatus, total: int, paid: bool,
                         createdAt: Time, estimatedReadyAt: Time, stamps: Stamps)

  /** An order row without its serial id. */
  datatype OrderSnapshot = OrderSnapshot(publicId: string, customerId: int, branchId: int,
                                         deliveryAddress: string, status: OrderStatus, total: int,
                                         paid: bool, createdAt: Time, estimatedReadyAt: Time,
                                         stamps: Stamps)

  function WithoutSerialId(o: Order): OrderSnapshot {
    OrderSnapshot(o.publicId, o.customerId, o.branchId, o.deliveryAddress, o.status, o.total,
                  o.paid, o.createdAt, o.estimatedReadyAt, o.stamps)
  }

  datatype OrderItem = OrderItem(id: int, orderId: int, menuItemId: int, quantity: int, unitPrice: int)

  /** The response snapshot kept with an idempotency key. */
  datatype IdempotencyResponse = IdempotencyResponse(orderWithoutSerialId: OrderSnapshot, items: seq<OrderItem>)

  datatype IdempotencyRecord = IdempotencyRecord(key: string, requestHash: Option<string>, orderId: int,
                                                 response: IdempotencyResponse)

  datatype Db = Db(users: Table<User>, restaurants: Table<Restaurant>, branches: Table<Branch>,
                   menus: Table<Menu>, menuItems: Table<MenuItem>, orders: Table<Order>,
                   orderItems: Table<OrderItem>, idempotency: map<string, IdempotencyRecord>)

  /** The integrity the store keeps: serial keys, rows that record their own
      key, order items that reference an existing order, and a unique
      public id per order. */
  ghost predicate Valid(db: Db) {
    && db.users.Valid() && db.restaurants.Valid() && db.branches.Valid() && db.menus.Valid()
    && db.menuItems.Valid() && db.orders.Valid() && db.orderItems.Valid()
    && (forall k :: k in db.users.rows ==> db.users.rows[k].id == k)
    && (forall k :: k in db.restaurants.rows ==> db.restaurants.rows[k].id == k)
    && (forall k :: k in db.branches.rows ==> db.branches.rows[k].id == k)
    && (forall k :: k in db.menus.rows ==> db.menus.rows[k].id == k)
    && (forall k :: k in db.menuItems.rows ==> db.menuItems.rows[k].id == k)
    && (forall k :: k in db.orders.rows ==> db.orders.rows[k].id == k)
    && (forall k :: k in db.orderItems.rows ==> db.orderItems.rows[k].id == k)
    && (forall k :: k in db.orderItems.rows ==> db.orderItems.rows[k].orderId in db.orders.rows)
    && (forall j, k :: j in db.orders.rows && k in db.orders.rows && j != k ==>
          db.orders.rows[j].publicId != db.orders.rows[k].publicId)
    && (forall key :: key in db.idempotency ==> db.idempotency[key].key == key)
  }

  function EmptyDb(): (db: Db)
    ensures Valid(db)
  {
    Db(Empty(), Empty(), Empty(), Empty(), Empty(), Empty(), Empty(), map[])
  }

  /** The store every repository function talks to. A transaction is a
      snapshot of `db` taken at BEGIN and written back at ROLLBACK. */
  class Store {
    var db: Db

    constructor (initial: Db)
      ensures db == initial
    {
      db := initial;
    }
  }
}
