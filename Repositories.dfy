/**
 * The JPA store behind UserRepository, RoleRepository, ProductRepository and BillRepository:
 * one object holding the four tables, the derived queries as functions over the tables, and the
 * writes (save, the soft-delete UPDATE, the rollback of product rows) as methods.
 */
module Repositories {
  import opened Common
  import opened Text
  import opened Entities

  // ----- UserRepository -----

  predicate ExistsByUsername(users: map<UserId, User>, username: string)
  {
    exists id :: id in users && users[id].username == username
  }

  predicate ExistsByEmail(users: map<UserId, User>, email: string)
  {
    exists id :: id in users && users[id].email == email
  }

  ghost predicate UniqueUsernames(users: map<UserId, User>)
  {
    forall a, b :: a in users && b in users && users[a].username == users[b].username ==> a == b
  }

  ghost predicate UniqueEmails(users: map<UserId, User>)
  {
    forall a, b :: a in users && b in users && users[a].email == users[b].email ==> a == b
  }

  /** findByUsername: the one user row with that username, if any. */
  function FindByUsername(users: map<UserId, User>, username: string): (r: Option<User>)
    requires UniqueUsernames(users)
    ensures r.Some? <==> ExistsByUsername(users, username)
    ensures r.Some? ==> r.value.username == username &&
                        forall id :: id in users && users[id].username == username ==> users[id] == r.value
  {
    if ExistsByUsername(users, username) then
      var id :| id in users && users[id].username == username;
      Some(users[id])
    else
      None
  }

  // ----- ProductRepository: read-only queries over the product rows -----

  /** SELECT p FROM ProductEntity p WHERE p.active = true */
  function FindAllActive(rows: map<ProductId, ProductRow>): set<ProductId>
  {
    set id | id in rows && rows[id].active
  }

  /** findByStock: the products whose stock equals `stock`, active or not. */
  function FindByStock(rows: map<ProductId, ProductRow>, stock: int): set<ProductId>
  {
    set id | id in rows && rows[id].stock == stock
  }

  /** findByNameContainingIgnoreCase: upper(name) LIKE upper('%' + text + '%'), active or not. */
  function FindByNameContainingIgnoreCase(rows: map<ProductId, ProductRow>, text: string): set<ProductId>
  {
    set id | id in rows && Contains(Upper(rows[id].name), Upper(text))
  }

  /** findByPriceRange: price BETWEEN min AND max (both inclusive) AND active = true. */
  function FindByPriceRange(rows: map<ProductId, ProductRow>, min: real, max: real): set<ProductId>
  {
    set id | id in rows && min <= rows[id].price <= max && rows[id].active
  }

  /** The name search matches a case-insensitive substring at some position of the name. */
  lemma NameSearchMatchesSubstring(rows: map<ProductId, ProductRow>, text: string, id: ProductId)
    ensures id in FindByNameContainingIgnoreCase(rows, text) <==>
            id in rows && exists i :: OccursAt(Upper(rows[id].name), Upper(text), i)
  {
    if id in rows {
      assert id in FindByNameContainingIgnoreCase(rows, text) <==> Contains(Upper(rows[id].name), Upper(text));
      ContainsIffOccurs(Upper(rows[id].name), Upper(text));
    }
  }

  // ----- BillRepository -----

  /**
   * SELECT b FROM BillEntity b JOIN FETCH b.user u WHERE b.active = true:
   * the inner join drops bills with no user.
   */
  function FindAllActiveBills(bills: map<BillId, Bill>, users: map<UserId, User>): set<BillId>
  {
    set id | id in bills && bills[id].active && bills[id].user.Some? && bills[id].user.value in users
  }

  /** The bill table after UPDATE BillEntity b SET b.active = false WHERE b.id = :billId. */
  function SoftDeletedBills(bills: map<BillId, Bill>, billId: BillId): (r: map<BillId, Bill>)
    ensures r.Keys == bills.Keys
    ensures forall id :: id in bills ==>
              r[id].dateTime == bills[id].dateTime && r[id].user == bills[id].user &&
              r[id].details == bills[id].details
    ensures forall id :: id in bills ==> r[id].active == (bills[id].active && id != billId)
  {
    if billId in bills then bills[billId := bills[billId].(active := false)] else bills
  }

  /**
   * After the soft delete the bill leaves the active listing and every other bill is listed as
   * before; a second soft delete changes nothing, and an absent id changes nothing at all.
   */
  lemma SoftDeletedBillLeavesListing(bills: map<BillId, Bill>, users: map<UserId, User>, billId: BillId)
    ensures FindAllActiveBills(SoftDeletedBills(bills, billId), users) == FindAllActiveBills(bills, users) - {billId}
    ensures SoftDeletedBills(SoftDeletedBills(bills, billId), billId) == SoftDeletedBills(bills, billId)
    ensures billId !in bills ==> SoftDeletedBills(bills, billId) == bills
  {
  }

  /**
   * The lines of one bill have pairwise distinct products. A bill_user row is keyed by
   * (bill id, product id), so two lines of one bill for the same product share a key.
   */
  predicate DistinctKeys(lines: seq<BillLine>)
  {
    forall i, j :: 0 <= i < j < |lines| ==> lines[i].productId != lines[j].productId
  }

  /** The store: four tables and the counters of their identity columns. */
  class Database {
    var users: map<UserId, User>
    var nextUserId: UserId
    var roles: map<string, Role>
    var nextRoleId: nat
    var products: map<ProductId, Product>
    var bills: map<BillId, Bill>
    var nextBillId: BillId

    ghost predicate Valid()
      reads this
    {
      && (forall id :: id in users ==> id < nextUserId)
      && UniqueUsernames(users)
      && UniqueEmails(users)
      && (forall name :: name in roles ==> roles[name].name == name && roles[name].id < nextRoleId)
      && (forall id :: id in products ==> products[id].id == id)
      && (forall id :: id in bills ==> id < nextBillId)
    }

    constructor ()
      ensures Valid()
      ensures users == map[] && roles == map[] && products == map[] && bills == map[]
    {
      users, nextUserId := map[], 0;
      roles, nextRoleId := map[], 0;
      products := map[];
      bills, nextBillId := map[], 0;
    }

    /** The product table as values. */
    function Rows(): map<ProductId, ProductRow>
      reads this`products, products.Values
    {
      map id | id in products :: products[id].Row()
    }

    /** UserRepository.save of a new user: the identity column assigns the next id. */
    method SaveUser(user: User) returns (id: UserId)
      requires Valid()
      requires !ExistsByUsername(users, user.username) && !ExistsByEmail(users, user.email)
      modifies this
      ensures Valid()
      ensures id == old(nextUserId) && id !in old(users) && users == old(users)[id := user]
      ensures roles == old(roles) && products == old(products) && bills == old(bills)
      ensures nextBillId == old(nextBillId) && nextRoleId == old(nextRoleId)
    {
      id := nextUserId;
      users := users[id := user];
      nextUserId := nextUserId + 1;
    }

    /** RoleRepository.save of a new role. */
    method SaveRole(name: string) returns (role: Role)
      requires Valid() && name !in roles
      modifies this
      ensures Valid()
      ensures role == Role(old(nextRoleId), name) && roles == old(roles)[name := role]
      ensures users == old(users) && products == old(products) && bills == old(bills)
      ensures nextUserId == old(nextUserId) && nextBillId == old(nextBillId)
    {
      role := Role(nextRoleId, name);
      roles := roles[name := role];
      nextRoleId := nextRoleId + 1;
    }

    /** ProductRepository.save: insert or replace the row with the product's id. */
    method SaveProduct(product: Product)
      requires Valid()
      modifies this
      ensures Valid()
      ensures products == old(products)[product.id := product]
      ensures users == old(users) && roles == old(roles) && bills == old(bills)
      ensures nextUserId == old(nextUserId) && nextRoleId == old(nextRoleId) && nextBillId == old(nextBillId)
    {
      products := products[product.id := product];
    }

    /**
     * BillRepository.save of a new bill with its lines (cascade). Persisting two lines with the
     * same key fails, and then nothing is stored; otherwise the bill gets the next id.
     */
    method SaveBill(bill: Bill) returns (id: Option<BillId>)
      requires Valid()
      modifies this
      ensures Valid()
      ensures !DistinctKeys(bill.details) ==> id.None? && bills == old(bills) && nextBillId == old(nextBillId)
      ensures DistinctKeys(bill.details) ==>
                id == Some(old(nextBillId)) && old(nextBillId) !in old(bills) && bills == old(bills)[old(nextBillId) := bill]
      ensures users == old(users) && roles == old(roles) && products == old(products)
      ensures nextUserId == old(nextUserId) && nextRoleId == old(nextRoleId)
    {
      if !DistinctKeys(bill.details) {
        return None;
      }
      id := Some(nextBillId);
      bills := bills[nextBillId := bill];
      nextBillId := nextBillId + 1;
    }

    /** BillRepository.softDelete: the UPDATE touches only the active column of that one row. */
    method SoftDeleteBill(billId: BillId)
      requires Valid()
      modifies this
      ensures Valid()
      ensures bills == SoftDeletedBills(old(bills), billId)
      ensures users == old(users) && roles == old(roles) && products == old(products)
      ensures nextUserId == old(nextUserId) && nextRoleId == old(nextRoleId) && nextBillId == old(nextBillId)
    {
      if billId in bills {
        bills := bills[billId := bills[billId].(active := false)];
      }
    }

    /**
     * The rollback of a transaction that changed only stock: every product row gets back the
     * stock it had in `snapshot`.
     */
    method RestoreStock(snapshot: map<ProductId, ProductRow>)
      requires Valid()
      requires snapshot.Keys == products.Keys
      requires forall id :: id in products ==> snapshot[id] == products[id].Row().(stock := snapshot[id].stock)
      modifies products.Values
      ensures Rows() == snapshot
    {
      forall id | id in products {
        products[id].stock := snapshot[id].stock;
      }
    }
  }
}
