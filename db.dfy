/** The database the core reads and writes (Prisma over Postgres): one
    sequence of rows per table, in insertion order, inside the class `Store`.
    Every table has a unique `id`; users also have a unique `email` and a
    unique `neonAuthId`. Rows are found front to back, so a lookup on a
    unique column finds the one row that has the value. */
module Db {
  import opened Wrappers

  datatype ApprovalStatus = Pending | Approved | Denied

  /** `'USER'` and `'ADMIN'`. */
  datatype Role = UserRole | AdminRole

  datatype User = User(id: string, email: string, neonAuthId: Option<string>, role: Role)

  /** A product. Prices are JavaScript numbers; the model uses reals.
      `stripeId` and `priceId` are the payment processor's product and price. */
  datatype Product = Product(
    id: string,
    userId: string,
    name: string,
    description: Option<string>,
    price: real,
    category: string,
    approvedForSale: ApprovalStatus,
    stripeId: Option<string>,
    priceId: Option<string>,
    productFileId: Option<string>,
    createdAt: int)

  datatype ProductFile = ProductFile(id: string, userId: string, url: Option<string>,
                                     filename: Option<string>, mimeType: Option<string>)

  datatype Media = Media(id: string, userId: string, url: Option<string>, filename: Option<string>,
                         mimeType: Option<string>, width: Option<int>, height: Option<int>)

  /** Links a media row to a product as one of its images. */
  datatype ProductImage = ProductImage(id: string, productId: string, mediaId: string, sortOrder: int)

  /** An order line: the product and its price copied at checkout. */
  datatype OrderItem = OrderItem(productId: string, price: real)

  datatype Order = Order(id: string, userId: string, isPaid: bool, items: seq<OrderItem>)

  function UserId(u: User): string { u.id }
  function UserEmail(u: User): string { u.email }
  function ProductKey(p: Product): string { p.id }
  function FileKey(f: ProductFile): string { f.id }
  function MediaKey(m: Media): string { m.id }
  function ImageKey(i: ProductImage): string { i.id }
  function OrderKey(o: Order): string { o.id }

  /** The first row whose key is `k`. */
  function Find<T>(rows: seq<T>, key: T -> string, k: string): (r: Option<nat>)
    ensures r.Some? ==> r.value < |rows| && key(rows[r.value]) == k
    ensures r.Some? ==> forall j :: 0 <= j < r.value ==> key(rows[j]) != k
    ensures r.None? ==> forall j :: 0 <= j < |rows| ==> key(rows[j]) != k
  {
    if rows == [] then None
    else if key(rows[0]) == k then Some(0)
    else
      match Find(rows[1..], key, k)
      case None => None
      case Some(i) => Some(i + 1)
  }

  ghost predicate Unique<T>(rows: seq<T>, key: T -> string) {
    forall i, j :: 0 <= i < j < |rows| ==> key(rows[i]) != key(rows[j])
  }

  /** The first product with this id and this owner (`findFirst` on `id` and `userId`). */
  function FindOwned(products: seq<Product>, productId: string, userId: string): (r: Option<nat>)
    ensures r.Some? ==> r.value < |products| && products[r.value].id == productId && products[r.value].userId == userId
    ensures r.None? ==> forall k :: 0 <= k < |products| ==> !(products[k].id == productId && products[k].userId == userId)
  {
    if products == [] then None
    else if products[0].id == productId && products[0].userId == userId then Some(0)
    else match FindOwned(products[1..], productId, userId)
      case None => None
      case Some(i) => Some(i + 1)
  }

  /** The user linked to the identity-provider id `authId`. */
  function FindByAuthId(users: seq<User>, authId: string): (r: Option<nat>)
    ensures r.Some? ==> r.value < |users| && users[r.value].neonAuthId == Some(authId)
    ensures r.None? ==> forall j :: 0 <= j < |users| ==> users[j].neonAuthId != Some(authId)
  {
    if users == [] then None
    else if users[0].neonAuthId == Some(authId) then Some(0)
    else
      match FindByAuthId(users[1..], authId)
      case None => None
      case Some(i) => Some(i + 1)
  }

  ghost predicate UniqueAuthIds(users: seq<User>) {
    forall i, j :: 0 <= i < j < |users| && users[i].neonAuthId.Some? ==> users[i].neonAuthId != users[j].neonAuthId
  }

  /** The unique constraints of the user table. */
  ghost predicate ValidUsers(users: seq<User>) {
    Unique(users, UserId) && Unique(users, UserEmail) && UniqueAuthIds(users)
  }

  class Store {
    var users: seq<User>
    var products: seq<Product>
    var productFiles: seq<ProductFile>
    var media: seq<Media>
    var productImages: seq<ProductImage>
    var orders: seq<Order>

    constructor ()
      ensures users == [] && products == [] && productFiles == []
      ensures media == [] && productImages == [] && orders == []
    {
      users, products, productFiles := [], [], [];
      media, productImages, orders := [], [], [];
    }
  }
}
