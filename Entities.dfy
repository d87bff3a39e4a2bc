/**
 * The persistent entities: products (updated in place, so a class), and users, roles,
 * bills and bill lines (stored rows that the services rebuild, so values).
 */
module Entities {
  import opened Common

  type ProductId = nat
  type UserId = nat
  type BillId = nat

  /** The abstract value of one product row in the store. */
  datatype ProductRow = ProductRow(name: string, price: real, stock: int, active: bool) {

    /** The stock guard of ProductEntity.hasStock. */
    predicate HasStock(amount: int)
    {
      stock >= amount
    }
  }

  /** ProductEntity: the only entity whose own method changes its state (subtractStock). */
  class Product {
    const id: ProductId
    var name: string
    var price: real
    var stock: int
    var active: bool

    /** A new product is active: `active` is initialised to true. */
    constructor (id: ProductId, name: string, price: real, stock: int)
      ensures this.id == id && Row() == ProductRow(name, price, stock, true)
    {
      this.id := id;
      this.name := name;
      this.price := price;
      this.stock := stock;
      this.active := true;
    }

    function Row(): ProductRow
      reads this
    {
      ProductRow(name, price, stock, active)
    }

    predicate HasStock(amount: int)
      reads this
    {
      Row().HasStock(amount)
    }

    /**
     * Deducts `amount` from the stock, or reports the IllegalArgumentException
     * "Not enough stock." by returning false and leaving the stock as it was.
     */
    method SubtractStock(amount: int) returns (enough: bool)
      modifies this
      ensures enough <==> old(stock) >= amount
      ensures stock == if enough then old(stock) - amount else old(stock)
      ensures enough ==> stock >= 0
      ensures name == old(name) && price == old(price) && active == old(active)
    {
      if !HasStock(amount) {
        return false;
      }
      stock := stock - amount;
      return true;
    }
  }

  /** RoleEntity; the role table is keyed by the unique name. */
  datatype Role = Role(id: nat, name: string)

  /** UserEntity without its id: the user table maps ids to these rows. */
  datatype User = User(fullName: string, username: string, email: string, password: string, roles: set<Role>)

  /** BillUser: one line of a bill (the bill itself is the container, the product is referenced by id). */
  datatype BillLine = BillLine(productId: ProductId, quantity: int)

  /** BillEntity without its id. `user` is the user_id foreign key, which the column allows to be null. */
  datatype Bill = Bill(dateTime: int, active: bool, user: Option<UserId>, details: seq<BillLine>)
}
