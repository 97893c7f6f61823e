/** A client of the order service that walks one customer through the
    application, using only the handlers' contracts. */
module Scenario {
  import opened Rows
  import opened Queries
  import opened Catalog
  import opened OrderApp

  /** A stand-in for the password-hash check: the hash of `p` is "hash:" + p. */
  function DemoCheck(stored: string, password: string): bool {
    stored == "hash:" + password
  }

  /** A stand-in for `float` on a posted amount, in cents. */
  function DemoNumber(text: string): Option<int> {
    if text == "18.98" then Some(1898) else None
  }

  /** A freshly initialised database on which alice registers, is refused a
      second registration under the same name, and logs in. */
  method AliceSignsUp() returns (store: Store, again: Response)
    ensures fresh(store) && store.Valid()
    ensures store.foods == SeedRows(SeedItems, 1)
    ensures store.orders == [] && store.nextOrderId == 1
    ensures store.session == Some("alice") && store.SessionUserId() == 1
    ensures again == RegisterPage(Some(DuplicateUsername))
  {
    store := new Store();
    store.InitDb();
    again := AliceRegistersAndLogsIn(store);
  }

  method AliceRegistersAndLogsIn(store: Store) returns (again: Response)
    requires store.Valid() && store.users == [] && store.nextUserId == 1
    modifies store
    ensures store.Valid() && store.foods == old(store.foods)
    ensures store.orders == old(store.orders) && store.nextOrderId == old(store.nextOrderId)
    ensures store.session == Some("alice") && store.SessionUserId() == 1
    ensures again == RegisterPage(Some(DuplicateUsername))
  {
    var form := map["username" := "alice", "password" := "pw1"];
    var r := store.Register(Post(form), "hash:pw1");
    assert store.users == [User(1, "alice", "hash:pw1")];
    assert store.users[0].username == "alice";
    again := store.Register(Post(form), "hash:other");
    assert Authenticate(store.users, "alice", "pw1", DemoCheck);
    r := store.Login(Post(form), DemoCheck);
  }

  /** On the seeded menu, Pizza (food 1) and Pasta (food 2), ordered by
      user 1, total 18.98. */
  lemma PizzaAndPastaTotal(foods: seq<Food>)
    requires UniqueFoodIds(foods) && foods == SeedRows(SeedItems, 1)
    ensures CartTotal([Order(1, 1, 1), Order(2, 1, 2)], foods, 1) == 1099 + 799
  {
    assert foods[0] == Food(1, "Pizza", 1099, "/static/images/pizza.jpg");
    assert foods[1] == Food(2, "Pasta", 799, "/static/images/pasta.jpg");
    PriceOfRow(foods, 0);
    PriceOfRow(foods, 1);
    OrderAddsPrice([], foods, Order(1, 1, 1), 1);
    assert [Order(1, 1, 1)] + [Order(2, 1, 2)] == [Order(1, 1, 1), Order(2, 1, 2)];
    OrderAddsPrice([Order(1, 1, 1)], foods, Order(2, 1, 2), 1);
  }

  /** alice orders Pizza (food 1) and Pasta (food 2) and opens the home page. */
  method AliceOrders(store: Store) returns (home: Response)
    requires store.Valid() && store.foods == SeedRows(SeedItems, 1)
    requires store.orders == [] && store.nextOrderId == 1
    requires store.session == Some("alice") && store.SessionUserId() == 1
    modifies store
    ensures store.Valid() && store.session == Some("alice") && store.SessionUserId() == 1
    ensures store.orders == [Order(1, 1, 1), Order(2, 1, 2)]
    ensures home.HomePage? && home.totalAmount == 1099 + 799
  {
    var r := store.Order(1);
    r := store.Order(2);
    assert store.orders == [Order(1, 1, 1)] + [Order(2, 1, 2)];
    PizzaAndPastaTotal(store.foods);
    home := store.Home();
  }

  /** The whole walk: sign-up, a refused duplicate sign-up, two orders
      totalling 18.98, and a cash payment that empties the cart. */
  method AliceOrdersAndPaysCash() returns (again: Response, home: Response, paid: Response, left: nat)
    ensures again == RegisterPage(Some(DuplicateUsername))
    ensures home.HomePage? && home.totalAmount == 1099 + 799
    ensures paid == ThankYouPage(PaymentSuccess)
    ensures left == 0
  {
    var store;
    store, again := AliceSignsUp();
    home := AliceOrders(store);
    paid := store.ProcessPayment(map["payment_method" := "cash", "total_amount" := "18.98"], DemoNumber);
    DeleteKeepsOthers([Order(1, 1, 1), Order(2, 1, 2)], 1, 0);
    left := OrderCount(store.orders, 1);
  }
}
