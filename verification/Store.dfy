/** The tenant's tables that checkout, payments and stock routes read and write. */
module Store {
  import opened Wrappers

  // Request body of `POST /orders`
  datatype ItemRequest = ItemRequest(menuItem: int, quantity: int, modifiers: seq<int>, price: real)

  datatype OrderRequest = OrderRequest(user: int, items: seq<ItemRequest>, points: Option<real>)

  datatype RecipeRow = RecipeRow(menuItem: int, ingredient: int, grams: real)

  // What checkout only reads
  datatype Catalogue = Catalogue(
    menu: map<int, real>,
    options: map<int, real>,
    minOrder: Option<real>,
    recipes: seq<RecipeRow>)

  datatype PaymentStatus = Pending | Paid | Failed

  // One line of `items_json`; the checkout route stores its lines without a name
  datatype OrderLine = OrderLine(name: Option<string>, quantity: int, price: real)

  datatype OrderRow = OrderRow(
    user: int,
    amount: real,
    loyaltyUsed: Option<real>,
    lines: seq<OrderLine>,
    status: string,
    paymentStatus: PaymentStatus,
    paymentId: Option<string>,
    idempotencyKey: Option<string>)

  datatype PointsEntry = PointsEntry(user: int, order: nat, points: real, balanceAfter: Option<real>)

  datatype Movement = Movement(ingredient: int, kind: string, quantity: real)

  // The contents of the mutable tables; a row's id in `orders` is its position
  datatype Tables = Tables(
    stock: map<int, real>,
    users: map<int, real>,
    orders: seq<OrderRow>,
    pointsLog: seq<PointsEntry>,
    movements: seq<Movement>)

  /** One tenant schema. */
  class Database {
    const catalogue: Catalogue
    var stock: map<int, real>
    var users: map<int, real>
    var orders: seq<OrderRow>
    var pointsLog: seq<PointsEntry>
    var movements: seq<Movement>

    function Rows(): Tables
      reads this
    {
      Tables(stock, users, orders, pointsLog, movements)
    }

    constructor (catalogue: Catalogue, tables: Tables)
      ensures this.catalogue == catalogue && Rows() == tables
    {
      this.catalogue := catalogue;
      stock, users, orders := tables.stock, tables.users, tables.orders;
      pointsLog, movements := tables.pointsLog, tables.movements;
    }

    /** Transaction rollback: every table is as it was in `saved`. */
    method Rollback(saved: Tables)
      modifies this
      ensures Rows() == saved
    {
      stock, users, orders := saved.stock, saved.users, saved.orders;
      pointsLog, movements := saved.pointsLog, saved.movements;
    }
  }
}
