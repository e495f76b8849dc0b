/** The store behind the HTTP routes: the tables `users`, `products` and
    `pending_products`, each a map from id to row with its own AUTOINCREMENT counter,
    and the handlers that change them. Each request is one sequential step. */
module Server {
  import opened Rows
  import opened Http
  import Auth
  import Catalog

  const MissingFields: string := "Missing required fields"
  const PendingNotFound: string := "Pending product not found"
  const ProductApproved: string := "Product approved"
  const PendingRemoved: string := "Pending product removed"
  const ProductNotFound: string := "Product not found"
  const ProductDeleted: string := "Product deleted successfully"
  const UserNotFound: string := "User not found"
  const PasswordUpdated: string := "Password updated successfully"

  /** The body check of both submit routes: every field present and truthy. */
  function CheckSubmission(name: Option<string>, description: Option<string>, price: Option<real>): (r: Option<Product>)
    ensures r.None? <==> Blank(name) || Blank(description) || BlankPrice(price)
    ensures r.Some? ==> r.value == Product(name.value, description.value, price.value)
  {
    if Blank(name) || Blank(description) || BlankPrice(price) then None
    else Some(Product(name.value, description.value, price.value))
  }

  /** The four products the setup script inserts, with the ids they receive. */
  const SeedProducts: map<int, Product> := map[
    1 := Product("Wireless Headphones", "Premium quality wireless headphones with noise cancellation", 199.99),
    2 := Product("Smart Watch", "Track your fitness and stay connected with this smart watch", 299.99),
    3 := Product("Bluetooth Speaker", "Portable speaker with crystal clear sound and long battery life", 89.99),
    4 := Product("USB-C Cable", "High-speed charging and data transfer cable for all your devices", 19.99)
  ]

  lemma SeedProductCount()
    ensures |SeedProducts| == 4
  {
  }

  /** The three users the setup script inserts; `hash` stands for bcrypt and `stamp(i)`
      for the CURRENT_TIMESTAMP default taken by the i-th insert (the inserts are separated
      by awaited hashing, so the three timestamps may differ). */
  function SeedUsers(hash: string -> string, stamp: nat -> string): (users: map<int, User>)
    ensures users.Keys == {1, 2, 3} && UniqueUsernames(users)
    ensures forall id :: id in users ==> (users[id].username == Auth.AdminUsername <==> id == 1)
    ensures forall id :: id in users ==> users[id].createdAt == stamp(id)
  {
    map[
      1 := User("admin", hash("admin123"), "admin@techstore.com", stamp(1)),
      2 := User("user1", hash("password123"), "user1@techstore.com", stamp(2)),
      3 := User("demo", hash("demo123"), "demo@techstore.com", stamp(3))
    ]
  }

  class Store {
    var users: map<int, User>
    var products: map<int, Product>
    var pending: map<int, Product>
    /** The id each table gives its next row: one more than the largest id it ever gave. */
    var nextUserId: int
    var nextProductId: int
    var nextPendingId: int
    /** Every row ever inserted into `pending_products`, by either submit route. */
    ghost var submitted: set<Product>

    /** Ids are positive and below their table's counter, so a counter never names a
        live row; usernames are unique; every row comes from seed data or a submission. */
    ghost predicate Valid()
      reads this
    {
      && 1 <= nextUserId && 1 <= nextProductId && 1 <= nextPendingId
      && (forall id :: id in users ==> 1 <= id < nextUserId)
      && (forall id :: id in products ==> 1 <= id < nextProductId)
      && (forall id :: id in pending ==> 1 <= id < nextPendingId)
      && UniqueUsernames(users)
      && RowsHaveProvenance()
    }

    /** A pending row was submitted; a product is either the seed row under its own id
        or a submitted row that approval copied over. */
    ghost predicate RowsHaveProvenance()
      reads this
    {
      && (forall id :: id in pending ==> pending[id] in submitted)
      && (forall id :: id in products ==>
            (id in SeedProducts && products[id] == SeedProducts[id]) || products[id] in submitted)
    }

    twostate predicate UsersUnchanged()
      reads this
    {
      users == old(users) && nextUserId == old(nextUserId)
    }

    twostate predicate ProductsUnchanged()
      reads this
    {
      products == old(products) && nextProductId == old(nextProductId)
    }

    twostate predicate PendingUnchanged()
      reads this
    {
      pending == old(pending) && nextPendingId == old(nextPendingId) && submitted == old(submitted)
    }

    /** The database the setup script leaves behind, plus the empty `pending_products`
        table the server creates at start-up. */
    constructor Seeded(hash: string -> string, stamp: nat -> string)
      ensures Valid()
      ensures users == SeedUsers(hash, stamp) && products == SeedProducts && pending == map[]
      ensures nextUserId == 4 && nextProductId == 5 && nextPendingId == 1 && submitted == {}
    {
      users := SeedUsers(hash, stamp);
      products := SeedProducts;
      pending := map[];
      nextUserId, nextProductId, nextPendingId := 4, 5, 1;
      submitted := {};
    }

    // ---- Single statements ----

    /** INSERT INTO pending_products. */
    method InsertPending(row: Product) returns (id: int)
      requires Valid()
      modifies this
      ensures Valid() && UsersUnchanged() && ProductsUnchanged()
      ensures id == old(nextPendingId) && id !in old(pending)
      ensures pending == old(pending)[id := row] && nextPendingId == id + 1
      ensures submitted == old(submitted) + {row}
    {
      id := nextPendingId;
      pending := pending[id := row];
      submitted := submitted + {row};
      nextPendingId := nextPendingId + 1;
    }

    /** INSERT INTO products, which only approval runs, on a submitted row. */
    method InsertProduct(row: Product) returns (id: int)
      requires Valid() && row in submitted
      modifies this
      ensures Valid() && UsersUnchanged() && PendingUnchanged()
      ensures id == old(nextProductId) && id !in old(products)
      ensures products == old(products)[id := row] && nextProductId == id + 1
    {
      id := nextProductId;
      products := products[id := row];
      nextProductId := nextProductId + 1;
    }

    /** DELETE FROM pending_products WHERE id = ?, reporting the rows it changed. */
    method DeletePending(id: int) returns (changes: nat)
      requires Valid()
      modifies this
      ensures Valid() && UsersUnchanged() && ProductsUnchanged()
      ensures changes == (if id in old(pending) then 1 else 0)
      ensures pending == old(pending) - {id} && nextPendingId == old(nextPendingId)
      ensures submitted == old(submitted)
    {
      changes := if id in pending then 1 else 0;
      pending := pending - {id};
    }

    /** DELETE FROM products WHERE id = <id>, reporting the rows it changed. */
    method DeleteProductRow(id: int) returns (changes: nat)
      requires Valid()
      modifies this
      ensures Valid() && UsersUnchanged() && PendingUnchanged()
      ensures changes == (if id in old(products) then 1 else 0)
      ensures products == old(products) - {id} && nextProductId == old(nextProductId)
    {
      changes := if id in products then 1 else 0;
      products := products - {id};
    }

    /** UPDATE users SET password = ? WHERE id = ?. */
    method UpdatePassword(id: int, passwordHash: string)
      requires Valid()
      modifies this
      ensures Valid() && ProductsUnchanged() && PendingUnchanged() && nextUserId == old(nextUserId)
      ensures users == if id in old(users) then old(users)[id := old(users)[id].(passwordHash := passwordHash)]
                       else old(users)
    {
      if id in users {
        users := users[id := users[id].(passwordHash := passwordHash)];
      }
    }

    // ---- Handlers ----

    /** POST /api/products/pending: a complete submission becomes one new pending row
        under a fresh id and is echoed with 201; an incomplete one changes nothing. */
    method SubmitPending(name: Option<string>, description: Option<string>, price: Option<real>) returns (r: Reply)
      requires Valid()
      modifies this
      ensures Valid() && UsersUnchanged() && ProductsUnchanged()
      ensures CheckSubmission(name, description, price).None? ==>
                r == Message(400, MissingFields) && PendingUnchanged()
      ensures CheckSubmission(name, description, price).Some? ==>
                && r == Created(old(nextPendingId), Product(name.value, description.value, price.value))
                && r.id !in old(pending)
                && pending == old(pending)[r.id := r.row]
                && |pending| == |old(pending)| + 1
                && nextPendingId == old(nextPendingId) + 1
                && submitted == old(submitted) + {r.row}
    {
      match CheckSubmission(name, description, price)
      case None =>
        r := Message(400, MissingFields);
      case Some(row) =>
        var id := InsertPending(row);
        r := Created(id, row);
    }

    /** POST /api/products: the legacy route runs a copy of the same handler, so it
        promises exactly what SubmitPending does. */
    method SubmitLegacy(name: Option<string>, description: Option<string>, price: Option<real>) returns (r: Reply)
      requires Valid()
      modifies this
      ensures Valid() && UsersUnchanged() && ProductsUnchanged()
      ensures CheckSubmission(name, description, price).None? ==>
                r == Message(400, MissingFields) && PendingUnchanged()
      ensures CheckSubmission(name, description, price).Some? ==>
                && r == Created(old(nextPendingId), Product(name.value, description.value, price.value))
                && r.id !in old(pending)
                && pending == old(pending)[r.id := r.row]
                && |pending| == |old(pending)| + 1
                && nextPendingId == old(nextPendingId) + 1
                && submitted == old(submitted) + {r.row}
    {
      r := SubmitPending(name, description, price);
    }

    /** POST /api/pending-products/:id/approve, behind requireAuth only: any signed-in
        user may approve. The pending row is copied into `products` under a fresh id and
        then deleted; nothing else changes. */
    method Approve(req: Request, verify: string -> Option<Claims>, id: int) returns (r: Reply)
      requires Valid()
      modifies this
      ensures Valid() && UsersUnchanged()
      ensures var gate := Auth.RequireAuth(req, verify);
              gate.Deny? ==> r == Denied(gate.denial) && ProductsUnchanged() && PendingUnchanged()
      ensures Auth.RequireAuth(req, verify).Proceed? && id !in old(pending) ==>
                r == Message(404, PendingNotFound) && ProductsUnchanged() && PendingUnchanged()
      ensures Auth.RequireAuth(req, verify).Proceed? && id in old(pending) ==>
                && r == Message(200, ProductApproved)
                && old(nextProductId) !in old(products)
                && products == old(products)[old(nextProductId) := old(pending)[id]]
                && nextProductId == old(nextProductId) + 1
                && pending == old(pending) - {id}
                && nextPendingId == old(nextPendingId)
                && submitted == old(submitted)
                && |products| == |old(products)| + 1
                && |pending| == |old(pending)| - 1
    {
      var gate := Auth.RequireAuth(req, verify);
      if gate.Deny? {
        return Denied(gate.denial);
      }
      if id !in pending {
        return Message(404, PendingNotFound);
      }
      var row := pending[id];
      var _ := InsertProduct(row);
      var _ := DeletePending(id);
      r := Message(200, ProductApproved);
    }

    /** DELETE /api/pending-products/:id, behind requireAuth: 404 exactly when no pending
        row has the id; otherwise that row alone is removed. */
    method Reject(req: Request, verify: string -> Option<Claims>, id: int) returns (r: Reply)
      requires Valid()
      modifies this
      ensures Valid() && UsersUnchanged() && ProductsUnchanged()
      ensures var gate := Auth.RequireAuth(req, verify);
              gate.Deny? ==> r == Denied(gate.denial) && PendingUnchanged()
      ensures Auth.RequireAuth(req, verify).Proceed? ==>
                && r == (if id in old(pending) then Message(200, PendingRemoved) else Message(404, PendingNotFound))
                && pending == old(pending) - {id}
                && nextPendingId == old(nextPendingId)
                && submitted == old(submitted)
    {
      var gate := Auth.RequireAuth(req, verify);
      if gate.Deny? {
        return Denied(gate.denial);
      }
      var changes := DeletePending(id);
      if changes == 0 {
        return Message(404, PendingNotFound);
      }
      r := Message(200, PendingRemoved);
    }

    /** DELETE /api/products/:id, with no auth at all: 404 exactly when no product has
        the id; otherwise that row alone is removed. */
    method DeleteProduct(id: int) returns (r: Reply)
      requires Valid()
      modifies this
      ensures Valid() && UsersUnchanged() && PendingUnchanged()
      ensures r == (if id in old(products) then Message(200, ProductDeleted) else Message(404, ProductNotFound))
      ensures products == old(products) - {id} && nextProductId == old(nextProductId)
    {
      var changes := DeleteProductRow(id);
      if changes == 0 {
        return Message(404, ProductNotFound);
      }
      r := Message(200, ProductDeleted);
    }

    /** POST /auth/change-password, behind requireAuth. No current password is asked for;
        on success only the signed-in user's password hash changes and a fresh token is
        signed from the stored row. */
    method ChangePassword(req: Request, verify: string -> Option<Claims>, newPassword: Field,
                          hash: string -> string) returns (r: Reply)
      requires Valid()
      modifies this
      ensures Valid() && ProductsUnchanged() && PendingUnchanged() && nextUserId == old(nextUserId)
      ensures var gate := Auth.RequireAuth(req, verify);
              gate.Deny? ==> r == Denied(gate.denial) && users == old(users)
      ensures var gate := Auth.RequireAuth(req, verify);
              var check := Auth.CheckNewPassword(newPassword);
              gate.Proceed? && check.Refused? ==> r == Message(400, check.message) && users == old(users)
      ensures var gate := Auth.RequireAuth(req, verify);
              gate.Proceed? && Auth.CheckNewPassword(newPassword).Accepted? && gate.user.id !in old(users) ==>
                r == Message(404, UserNotFound) && users == old(users)
      ensures var gate := Auth.RequireAuth(req, verify);
              var check := Auth.CheckNewPassword(newPassword);
              gate.Proceed? && check.Accepted? && gate.user.id in old(users) ==>
                && users == old(users)[gate.user.id := old(users)[gate.user.id].(passwordHash := hash(check.password))]
                && r == Session(PasswordUpdated, Auth.ClaimsFor(gate.user.id, old(users)[gate.user.id]))
    {
      var gate := Auth.RequireAuth(req, verify);
      if gate.Deny? {
        return Denied(gate.denial);
      }
      var check := Auth.CheckNewPassword(newPassword);
      if check.Refused? {
        return Message(400, check.message);
      }
      var id := gate.user.id;
      if id !in users {
        return Message(404, UserNotFound);
      }
      var user := users[id];
      UpdatePassword(id, hash(check.password));
      r := Session(PasswordUpdated, Auth.ClaimsFor(id, user));
    }

    // ---- Reading routes ----

    /** GET /api/products: every product, to anyone. */
    function ListProducts(): (r: Reply)
      reads this
      ensures r.Listing? && r.rows == products && r.Status() == 200
    {
      Listing(products)
    }

    /** GET /api/pending-products, behind requireAuth. */
    function ListPending(req: Request, verify: string -> Option<Claims>): (r: Reply)
      reads this
      ensures r.Listing? <==> Auth.RequireAuth(req, verify).Proceed?
      ensures r.Listing? ==> r.rows == pending
      ensures !r.Listing? ==> r == Denied(Auth.Unauthenticated(req.acceptsHtml))
    {
      match Auth.RequireAuth(req, verify)
      case Deny(d) => Denied(d)
      case Proceed(_) => Listing(pending)
    }

    /** GET /admin/queue, behind requireAdmin: the pending rows it renders. */
    function AdminQueue(req: Request, verify: string -> Option<Claims>): (r: Reply)
      reads this
      ensures r.Listing? <==> Auth.RequireAuth(req, verify).Proceed? && Auth.RequireAuth(req, verify).user.isAdmin
      ensures r.Listing? ==> r.rows == pending
      ensures !r.Listing? ==> r == Denied(Auth.RequireAdmin(req, verify).denial)
    {
      match Auth.RequireAdmin(req, verify)
      case Deny(d) => Denied(d)
      case Proceed(_) => Listing(pending)
    }
  }

  // ---- Scenarios on the seeded store ----

  /** Deleting product 1 from the seeded store leaves the other three products. */
  method DeleteFirstSeededProduct(hash: string -> string, stamp: nat -> string) returns (status: nat, listed: map<int, Product>)
    ensures status == 200
    ensures |listed| == 3 && 1 !in listed
    ensures forall id :: id in listed ==> id in SeedProducts && listed[id] == SeedProducts[id]
  {
    var store := new Store.Seeded(hash, stamp);
    var r := store.DeleteProduct(1);
    status := r.Status();
    listed := store.ListProducts().rows;
  }

  /** A submission approved by a signed-in user is published under a new id and is no
      longer pending. */
  method SubmitThenApprove(hash: string -> string, stamp: nat -> string, req: Request, verify: string -> Option<Claims>)
    returns (submitted: Reply, approved: Reply, listed: map<int, Product>, queue: map<int, Product>)
    requires Auth.RequireAuth(req, verify).Proceed?
    ensures submitted.Status() == 201 && approved.Status() == 200
    ensures submitted.Created? && submitted.id !in queue
    ensures |listed| == 5
    ensures exists id :: id in listed && listed[id] == Product("X", "Y", 9.99)
  {
    var row := Product("X", "Y", 9.99);
    var store := new Store.Seeded(hash, stamp);
    submitted := store.SubmitPending(Some("X"), Some("Y"), Some(9.99));
    ghost var before := store.products;
    assert before == SeedProducts && submitted == Created(1, row);
    approved := store.Approve(req, verify, submitted.id);
    SeedProductCount();
    assert |store.products| == |before| + 1;
    listed := store.ListProducts().rows;
    queue := store.ListPending(req, verify).rows;
    assert listed[5] == row;
  }

  /** A signed-in user without the admin claim is refused the review queue and may still
      approve what is in it. */
  method NonAdminApproves(hash: string -> string, stamp: nat -> string, req: Request, verify: string -> Option<Claims>)
    returns (queueStatus: nat, approveStatus: nat)
    requires Auth.RequireAuth(req, verify).Proceed? && !Auth.RequireAuth(req, verify).user.isAdmin
    ensures queueStatus == 403 && approveStatus == 200
  {
    var store := new Store.Seeded(hash, stamp);
    var submitted := store.SubmitPending(Some("X"), Some("Y"), Some(9.99));
    queueStatus := store.AdminQueue(req, verify).Status();
    var approved := store.Approve(req, verify, submitted.id);
    approveStatus := approved.Status();
  }
}
