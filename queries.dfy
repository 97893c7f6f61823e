/** The SQL queries the route handlers run, as functions over the table
    contents, and the facts about them that the handlers rely on. */
module Queries {
  import opened Rows

  // ---------------------------------------------------------------- users

  /** Some row of `users` carries `name`: the condition under which the
      UNIQUE constraint on `username` rejects an INSERT. */
  predicate UsernameTaken(users: seq<User>, name: string) {
    exists i :: 0 <= i < |users| && users[i].username == name
  }

  /** The UNIQUE constraint on `users.username`. */
  predicate UniqueUsernames(users: seq<User>) {
    forall i, j :: 0 <= i < j < |users| ==> users[i].username != users[j].username
  }

  /** The PRIMARY KEY on `users.id`. */
  predicate UniqueUserIds(users: seq<User>) {
    forall i, j :: 0 <= i < j < |users| ==> users[i].id != users[j].id
  }

  predicate UserIdExists(users: seq<User>, id: nat) {
    exists i :: 0 <= i < |users| && users[i].id == id
  }

  /** `SELECT * FROM users WHERE username = ?` followed by `fetchone()`:
      the first matching row, if any. */
  function FindUser(users: seq<User>, name: string): (r: Option<User>)
    ensures r.Some? <==> UsernameTaken(users, name)
    ensures r.Some? ==> r.value in users && r.value.username == name
  {
    if users == [] then None
    else if users[0].username == name then Some(users[0])
    else
      var r := FindUser(users[1..], name);
      assert UsernameTaken(users, name) ==> UsernameTaken(users[1..], name) by {
        if UsernameTaken(users, name) {
          var i :| 0 <= i < |users| && users[i].username == name;
          assert users[1..][i - 1] == users[i];
        }
      }
      r
  }

  /** Number of rows of `users` carrying `name`. */
  function UsernameCount(users: seq<User>, name: string): nat {
    if users == [] then 0
    else (if users[0].username == name then 1 else 0) + UsernameCount(users[1..], name)
  }

  lemma UniqueUsernamesTail(users: seq<User>)
    requires UniqueUsernames(users) && users != []
    ensures UniqueUsernames(users[1..])
  {
  }

  /** Under the UNIQUE constraint a username occurs in exactly one row when
      it is taken and in none otherwise. */
  lemma {:induction false} UniqueUsernameCount(users: seq<User>, name: string)
    requires UniqueUsernames(users)
    ensures UsernameCount(users, name) == if UsernameTaken(users, name) then 1 else 0
  {
    if users != [] {
      UniqueUsernamesTail(users);
      UniqueUsernameCount(users[1..], name);
      if users[0].username == name {
        forall i | 0 <= i < |users[1..]| ensures users[1..][i].username != name {
          assert users[1..][i] == users[i + 1];
        }
      } else if UsernameTaken(users, name) {
        var i :| 0 <= i < |users| && users[i].username == name;
        assert users[1..][i - 1] == users[i];
      }
    }
  }

  /** Registering a name nobody holds keeps usernames unique and leaves
      exactly one row with that name. */
  lemma RegisterAddsExactlyOneRow(users: seq<User>, u: User)
    requires UniqueUsernames(users) && !UsernameTaken(users, u.username)
    ensures UniqueUsernames(users + [u])
    ensures UsernameCount(users + [u], u.username) == 1
  {
    var s := users + [u];
    forall i, j | 0 <= i < j < |s| ensures s[i].username != s[j].username {
      if j == |users| {
        assert s[i] == users[i];
      } else {
        assert s[i] == users[i] && s[j] == users[j];
      }
    }
    assert s[|users|].username == u.username;
    UniqueUsernameCount(s, u.username);
  }

  /** Under the UNIQUE constraint the row `fetchone()` returns for a name is
      the one row that carries it. */
  lemma FindUserUnique(users: seq<User>, i: nat)
    requires UniqueUsernames(users) && i < |users|
    ensures FindUser(users, users[i].username) == Some(users[i])
  {
  }

  /** The login test `user and check_password_hash(user[2], password)`;
      `check` stands for the password-hash check of the hashing library. */
  function Authenticate(users: seq<User>, name: string, password: string,
                        check: (string, string) -> bool): (ok: bool)
    ensures ok ==> exists i :: 0 <= i < |users| && users[i].username == name
                                 && check(users[i].passwordHash, password)
  {
    match FindUser(users, name)
    case None => false
    case Some(u) =>
      var ok := check(u.passwordHash, password);
      assert ok ==> exists i :: 0 <= i < |users| && users[i] == u;
      ok
  }

  /** Login succeeds iff some row carries the name and its hash accepts the
      password. */
  lemma AuthenticateIff(users: seq<User>, name: string, password: string,
                        check: (string, string) -> bool)
    requires UniqueUsernames(users)
    ensures Authenticate(users, name, password, check) <==>
      exists i :: 0 <= i < |users| && users[i].username == name
                  && check(users[i].passwordHash, password)
  {
  }

  // --------------------------------------------------------------- orders

  /** `SELECT ... FROM orders WHERE user_id = ?`, in table order. */
  function OrdersOf(orders: seq<Order>, uid: nat): (r: seq<Order>)
    ensures |r| <= |orders|
    ensures forall o :: o in r <==> o in orders && o.userId == uid
  {
    if orders == [] then []
    else (if orders[0].userId == uid then [orders[0]] else []) + OrdersOf(orders[1..], uid)
  }

  /** The rows `DELETE FROM orders WHERE user_id = ?` leaves behind. */
  function WithoutUser(orders: seq<Order>, uid: nat): (r: seq<Order>)
    ensures |r| <= |orders|
    ensures forall o :: o in r <==> o in orders && o.userId != uid
  {
    if orders == [] then []
    else (if orders[0].userId != uid then [orders[0]] else []) + WithoutUser(orders[1..], uid)
  }

  /** The PRIMARY KEY on `orders.id`. */
  predicate UniqueOrderIds(orders: seq<Order>) {
    forall i, j :: 0 <= i < j < |orders| ==> orders[i].id != orders[j].id
  }

  /** The DELETE keeps the primary key on `orders.id`. */
  lemma {:induction false} WithoutUserKeepsOrderIds(orders: seq<Order>, uid: nat)
    requires UniqueOrderIds(orders)
    ensures UniqueOrderIds(WithoutUser(orders, uid))
  {
    if orders != [] {
      var tail := orders[1..];
      OrderIdsSplit(orders);
      WithoutUserKeepsOrderIds(tail, uid);
      var rest := WithoutUser(tail, uid);
      if orders[0].userId != uid {
        assert WithoutUser(orders, uid) == [orders[0]] + rest;
        OrderIdsCons(orders[0], rest);
      } else {
        assert WithoutUser(orders, uid) == rest;
      }
    }
  }

  /** The rows after the first keep the primary key, and none of them
      repeats the first row's id. */
  lemma OrderIdsSplit(orders: seq<Order>)
    requires UniqueOrderIds(orders) && orders != []
    ensures UniqueOrderIds(orders[1..])
    ensures forall o :: o in orders[1..] ==> o.id != orders[0].id
  {
    var tail := orders[1..];
    forall i, j | 0 <= i < j < |tail| ensures tail[i].id != tail[j].id {
      assert tail[i] == orders[i + 1] && tail[j] == orders[j + 1];
    }
    forall o | o in tail ensures o.id != orders[0].id {
      var k :| 0 <= k < |tail| && tail[k] == o;
      assert orders[k + 1] == o;
    }
  }

  lemma OrderIdsCons(o: Order, rest: seq<Order>)
    requires UniqueOrderIds(rest) && forall x :: x in rest ==> x.id != o.id
    ensures UniqueOrderIds([o] + rest)
  {
    var w := [o] + rest;
    forall i, j | 0 <= i < j < |w| ensures w[i].id != w[j].id {
      assert w[j] == rest[j - 1] && rest[j - 1] in rest;
      if i > 0 {
        assert w[i] == rest[i - 1];
      }
    }
  }

  /** `SELECT COUNT(*) FROM orders WHERE user_id = ?`. */
  function OrderCount(orders: seq<Order>, uid: nat): (n: nat)
    ensures n <= |orders|
    ensures n == 0 <==> forall o :: o in orders ==> o.userId != uid
  {
    if orders == [] then 0
    else (if orders[0].userId == uid then 1 else 0) + OrderCount(orders[1..], uid)
  }

  /** The count query counts exactly the rows the listing query selects. */
  lemma {:induction false} OrderCountIsOrdersOf(orders: seq<Order>, uid: nat)
    ensures OrderCount(orders, uid) == |OrdersOf(orders, uid)|
  {
    if orders != [] {
      OrderCountIsOrdersOf(orders[1..], uid);
    }
  }

  /** Appending a row extends the user's selection by that row exactly when
      it is theirs. */
  lemma {:induction false} OrdersOfAppend(orders: seq<Order>, o: Order, uid: nat)
    ensures OrdersOf(orders + [o], uid) ==
            OrdersOf(orders, uid) + (if o.userId == uid then [o] else [])
  {
    if orders == [] {
      assert orders + [o] == [o];
    } else {
      var s := orders + [o];
      assert s[0] == orders[0] && s[1..] == orders[1..] + [o];
      OrdersOfAppend(orders[1..], o, uid);
      var head := if orders[0].userId == uid then [orders[0]] else [];
      var tail := if o.userId == uid then [o] else [];
      calc {
        OrdersOf(s, uid);
        head + OrdersOf(orders[1..] + [o], uid);
        head + (OrdersOf(orders[1..], uid) + tail);
        (head + OrdersOf(orders[1..], uid)) + tail;
        OrdersOf(orders, uid) + tail;
      }
    }
  }

  /** The count grows by one for the user a new row belongs to, and stays
      the same for everybody else. */
  lemma OrderCountAppend(orders: seq<Order>, o: Order, uid: nat)
    ensures OrderCount(orders + [o], uid) ==
            OrderCount(orders, uid) + (if o.userId == uid then 1 else 0)
  {
    OrderCountIsOrdersOf(orders + [o], uid);
    OrderCountIsOrdersOf(orders, uid);
    OrdersOfAppend(orders, o, uid);
  }

  /** The DELETE removes exactly the user's rows: none of theirs is left, and
      every other user's selection is the same rows in the same order. */
  lemma {:induction false} DeleteKeepsOthers(orders: seq<Order>, uid: nat, v: nat)
    ensures OrderCount(WithoutUser(orders, uid), uid) == 0
    ensures v != uid ==> OrdersOf(WithoutUser(orders, uid), v) == OrdersOf(orders, v)
  {
    if orders != [] {
      DeleteKeepsOthers(orders[1..], uid, v);
      var rest := WithoutUser(orders[1..], uid);
      if orders[0].userId != uid {
        var w := [orders[0]] + rest;
        assert WithoutUser(orders, uid) == w;
        assert w[0] == orders[0] && w[1..] == rest;
        assert OrdersOf(w, v) == (if orders[0].userId == v then [orders[0]] else []) + OrdersOf(rest, v);
      } else {
        assert WithoutUser(orders, uid) == rest;
      }
    }
  }

  /** The DELETE removes as many rows as the count query counts. */
  lemma {:induction false} DeleteRemovesCount(orders: seq<Order>, uid: nat)
    ensures |WithoutUser(orders, uid)| == |orders| - OrderCount(orders, uid)
  {
    if orders != [] {
      DeleteRemovesCount(orders[1..], uid);
    }
  }

  // ---------------------------------------------------------------- foods

  predicate FoodExists(foods: seq<Food>, fid: nat) {
    exists i :: 0 <= i < |foods| && foods[i].id == fid
  }

  /** The PRIMARY KEY on `foods.id`. */
  predicate UniqueFoodIds(foods: seq<Food>) {
    forall i, j :: 0 <= i < j < |foods| ==> foods[i].id != foods[j].id
  }

  lemma UniqueFoodIdsTail(foods: seq<Food>)
    requires UniqueFoodIds(foods) && foods != []
    ensures UniqueFoodIds(foods[1..])
  {
  }

  /** The price an order for `fid` is worth in the cart: that food's price,
      or nothing when no food has that id. */
  function PriceOf(foods: seq<Food>, fid: nat): (p: int)
    ensures !FoodExists(foods, fid) ==> p == 0
  {
    if foods == [] then 0
    else if foods[0].id == fid then foods[0].price
    else
      assert FoodExists(foods[1..], fid) <== FoodExists(foods, fid) by {
        if FoodExists(foods, fid) {
          var i :| 0 <= i < |foods| && foods[i].id == fid;
          assert foods[1..][i - 1] == foods[i];
        }
      }
      PriceOf(foods[1..], fid)
  }

  /** Under the primary key, the price an id is worth is that row's price. */
  lemma {:induction false} PriceOfRow(foods: seq<Food>, i: nat)
    requires UniqueFoodIds(foods) && i < |foods|
    ensures PriceOf(foods, foods[i].id) == foods[i].price
  {
    if i > 0 {
      assert foods[0].id != foods[i].id;
      UniqueFoodIdsTail(foods);
      assert foods[1..][i - 1] == foods[i];
      PriceOfRow(foods[1..], i - 1);
    }
  }

  // ----------------------------------------------------------------- join

  /** `JOIN foods ON orders.food_id = foods.id` for one order row: one line
      per food row with that id. */
  function JoinFood(foods: seq<Food>, o: Order): (r: seq<CartLine>)
    ensures forall l :: l in r ==> l.orderId == o.id
    ensures forall l :: l in r ==>
      exists f :: f in foods && f.id == o.foodId && l == CartLine(o.id, f.name, f.image, f.price)
  {
    if foods == [] then []
    else
      var f := foods[0];
      (if f.id == o.foodId then [CartLine(o.id, f.name, f.image, f.price)] else [])
        + JoinFood(foods[1..], o)
  }

  /** The join over a sequence of order rows, in order-row order. */
  function Joined(orders: seq<Order>, foods: seq<Food>): (r: seq<CartLine>)
    ensures forall l :: l in r ==>
      exists o, f :: o in orders && f in foods && f.id == o.foodId &&
                     l == CartLine(o.id, f.name, f.image, f.price)
  {
    if orders == [] then []
    else
      var r := JoinFood(foods, orders[0]) + Joined(orders[1..], foods);
      assert forall o :: o in orders[1..] ==> o in orders;
      assert orders[0] in orders;
      r
  }

  /** Every matching (order, food) pair yields its line in the join of one
      order row. */
  lemma {:induction false} JoinFoodComplete(foods: seq<Food>, o: Order, f: Food)
    requires f in foods && f.id == o.foodId
    ensures CartLine(o.id, f.name, f.image, f.price) in JoinFood(foods, o)
  {
    if foods[0] != f {
      assert f in foods[1..];
      JoinFoodComplete(foods[1..], o, f);
    }
  }

  /** Every matching (order, food) pair yields its line in the join. */
  lemma {:induction false} JoinedComplete(orders: seq<Order>, foods: seq<Food>, o: Order, f: Food)
    requires o in orders && f in foods && f.id == o.foodId
    ensures CartLine(o.id, f.name, f.image, f.price) in Joined(orders, foods)
  {
    if orders[0] == o {
      JoinFoodComplete(foods, o, f);
    } else {
      assert o in orders[1..];
      JoinedComplete(orders[1..], foods, o, f);
    }
  }

  /** The rows of the home page's cart query: the user's orders joined to
      their foods. */
  function CartLines(orders: seq<Order>, foods: seq<Food>, uid: nat): (r: seq<CartLine>)
    ensures forall l :: l in r ==>
      exists o, f :: o in orders && o.userId == uid && f in foods && f.id == o.foodId &&
                     l == CartLine(o.id, f.name, f.image, f.price)
  {
    Joined(OrdersOf(orders, uid), foods)
  }

  /** Every order row of the user whose food exists appears in the cart,
      with that food's name, image and price. */
  lemma CartLinesComplete(orders: seq<Order>, foods: seq<Food>, uid: nat, o: Order, f: Food)
    requires o in orders && o.userId == uid && f in foods && f.id == o.foodId
    ensures CartLine(o.id, f.name, f.image, f.price) in CartLines(orders, foods, uid)
  {
    JoinedComplete(OrdersOf(orders, uid), foods, o, f);
  }

  /** `sum(order[3] for order in orders)`. */
  function SumPrices(lines: seq<CartLine>): (r: int)
    ensures (forall l :: l in lines ==> l.price >= 0) ==> r >= 0
  {
    if lines == [] then 0
    else
      assert forall l :: l in lines[1..] ==> l in lines;
      lines[0].price + SumPrices(lines[1..])
  }

  /** The home page's `total_amount`: under the primary key on foods, the
      sum of the prices of the user's orders whose food row exists. */
  ghost function CartTotal(orders: seq<Order>, foods: seq<Food>, uid: nat): (r: int)
    ensures UniqueFoodIds(foods) ==> r == ReferenceTotal(orders, foods, uid)
  {
    if UniqueFoodIds(foods) then
      JoinedIsReference(OrdersOf(orders, uid), foods, orders, uid);
      SumPrices(CartLines(orders, foods, uid))
    else
      SumPrices(CartLines(orders, foods, uid))
  }

  /** Reference definition of the cart total: every order row of the user is
      worth its food's price, or nothing when that food is missing; other
      users' rows are worth nothing. */
  function ReferenceTotal(orders: seq<Order>, foods: seq<Food>, uid: nat): int {
    if orders == [] then 0
    else (if orders[0].userId == uid then PriceOf(foods, orders[0].foodId) else 0)
           + ReferenceTotal(orders[1..], foods, uid)
  }

  lemma {:induction false} SumPricesAppend(a: seq<CartLine>, b: seq<CartLine>)
    ensures SumPrices(a + b) == SumPrices(a) + SumPrices(b)
  {
    if a == [] {
      assert a + b == b;
    } else {
      assert (a + b)[1..] == a[1..] + b;
      SumPricesAppend(a[1..], b);
    }
  }

  /** Under the primary key an order row joins to at most one food row, and
      the line it yields is worth `PriceOf` its food id. */
  lemma {:induction false} JoinFoodSingle(foods: seq<Food>, o: Order)
    requires UniqueFoodIds(foods)
    ensures |JoinFood(foods, o)| == if FoodExists(foods, o.foodId) then 1 else 0
    ensures SumPrices(JoinFood(foods, o)) == PriceOf(foods, o.foodId)
  {
    if foods != [] {
      UniqueFoodIdsTail(foods);
      JoinFoodSingle(foods[1..], o);
      var head := if foods[0].id == o.foodId
                  then [CartLine(o.id, foods[0].name, foods[0].image, foods[0].price)] else [];
      SumPricesAppend(head, JoinFood(foods[1..], o));
      if foods[0].id == o.foodId {
        forall i | 0 <= i < |foods[1..]| ensures foods[1..][i].id != o.foodId {
          assert foods[1..][i] == foods[i + 1];
        }
      } else if FoodExists(foods, o.foodId) {
        var i :| 0 <= i < |foods| && foods[i].id == o.foodId;
        assert foods[1..][i - 1] == foods[i];
      }
    }
  }

  lemma {:induction false} JoinedIsReference(orders: seq<Order>, foods: seq<Food>, all: seq<Order>, uid: nat)
    requires UniqueFoodIds(foods)
    requires orders == OrdersOf(all, uid)
    decreases |all|
    ensures SumPrices(Joined(orders, foods)) == ReferenceTotal(all, foods, uid)
  {
    if all != [] {
      var rest := OrdersOf(all[1..], uid);
      JoinedIsReference(rest, foods, all[1..], uid);
      if all[0].userId == uid {
        assert orders == [all[0]] + rest;
        assert orders[0] == all[0] && orders[1..] == rest;
        JoinFoodSingle(foods, all[0]);
        SumPricesAppend(JoinFood(foods, all[0]), Joined(rest, foods));
      } else {
        assert orders == rest;
      }
    }
  }

  lemma {:induction false} ReferenceTotalAppend(orders: seq<Order>, foods: seq<Food>, o: Order, uid: nat)
    ensures ReferenceTotal(orders + [o], foods, uid) ==
            ReferenceTotal(orders, foods, uid) + (if o.userId == uid then PriceOf(foods, o.foodId) else 0)
  {
    if orders == [] {
      assert orders + [o] == [o];
    } else {
      assert (orders + [o])[1..] == orders[1..] + [o];
      ReferenceTotalAppend(orders[1..], foods, o, uid);
    }
  }

  /** A new order row raises its owner's total by its food's price (by
      nothing when the food is missing) and leaves every other total alone. */
  lemma OrderAddsPrice(orders: seq<Order>, foods: seq<Food>, o: Order, uid: nat)
    requires UniqueFoodIds(foods)
    ensures CartTotal(orders + [o], foods, uid) ==
            CartTotal(orders, foods, uid) + (if o.userId == uid then PriceOf(foods, o.foodId) else 0)
  {
    ReferenceTotalAppend(orders, foods, o, uid);
  }

  /** Every order row of the user joins to a food row. */
  predicate AllJoin(orders: seq<Order>, foods: seq<Food>, uid: nat) {
    forall o :: o in orders && o.userId == uid ==> FoodExists(foods, o.foodId)
  }

  lemma {:induction false} JoinedLength(orders: seq<Order>, foods: seq<Food>)
    requires UniqueFoodIds(foods)
    ensures |Joined(orders, foods)| <= |orders|
    ensures |Joined(orders, foods)| == |orders| <==> forall o :: o in orders ==> FoodExists(foods, o.foodId)
  {
    if orders != [] {
      JoinFoodSingle(foods, orders[0]);
      JoinedLength(orders[1..], foods);
      assert forall o :: o in orders <==> o == orders[0] || o in orders[1..];
    }
  }

  /** The payment page's count and its sum disagree exactly about missing
      foods: the cart has at most as many lines as the count, and as many
      only when every one of the user's orders joins. */
  lemma CartLinesWithinCount(orders: seq<Order>, foods: seq<Food>, uid: nat)
    requires UniqueFoodIds(foods)
    ensures |CartLines(orders, foods, uid)| <= OrderCount(orders, uid)
    ensures |CartLines(orders, foods, uid)| == OrderCount(orders, uid) <==> AllJoin(orders, foods, uid)
  {
    OrderCountIsOrdersOf(orders, uid);
    JoinedLength(OrdersOf(orders, uid), foods);
  }

  /** Orders whose food is missing are counted but contribute nothing to
      the total. */
  lemma {:induction false} UnmatchedOrdersAddNothing(orders: seq<Order>, foods: seq<Food>, uid: nat)
    requires forall o :: o in orders && o.userId == uid ==> !FoodExists(foods, o.foodId)
    ensures ReferenceTotal(orders, foods, uid) == 0
  {
    if orders != [] {
      assert orders[0] in orders;
      assert forall o :: o in orders[1..] ==> o in orders;
      UnmatchedOrdersAddNothing(orders[1..], foods, uid);
    }
  }

  // -------------------------------------------------------------- payment

  /** SQL `SUM(...)` over the joined rows: NULL when there are none. */
  function SqlSum(lines: seq<CartLine>): (r: Option<int>)
    ensures r.None? <==> lines == []
  {
    if lines == [] then None else Some(SumPrices(lines))
  }

  /** SUM over the cart is NULL exactly when none of the user's order rows
      joins to a food row. */
  lemma SqlSumNullIff(orders: seq<Order>, foods: seq<Food>, uid: nat)
    ensures SqlSum(CartLines(orders, foods, uid)).None? <==>
            forall o :: o in orders && o.userId == uid ==> !FoodExists(foods, o.foodId)
  {
    var lines := CartLines(orders, foods, uid);
    if lines != [] {
      assert lines[0] in lines;
    }
    forall o | o in orders && o.userId == uid && FoodExists(foods, o.foodId)
      ensures lines != []
    {
      var i :| 0 <= i < |foods| && foods[i].id == o.foodId;
      CartLinesComplete(orders, foods, uid, o, foods[i]);
    }
  }

  /** Python's `value or 0` on a fetched SQL value: NULL and 0 are falsy,
      so both give 0. */
  function OrZero(v: Option<int>): (r: int)
    ensures r == if v.Some? then v.value else 0
  {
    match v
    case None => 0
    case Some(x) => if x == 0 then 0 else x
  }

  /** The payment page's `total_amount`; it always agrees with the home
      page's total. */
  function PaymentTotal(orders: seq<Order>, foods: seq<Food>, uid: nat): (t: int)
    ensures t == CartTotal(orders, foods, uid)
  {
    OrZero(SqlSum(CartLines(orders, foods, uid)))
  }
}
