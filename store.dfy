/** The order service: the three tables, their autoincrement counters and
    the browser session, with one method per route handler. Each handler
    is one request against the store; rendering a template or redirecting
    is the `Response` it returns. */
module OrderApp {
  import opened Rows
  import opened Queries
  import opened Catalog

  const InvalidCredentials := "Invalid username or password"
  const DuplicateUsername := "Username already exists"
  const PaymentSuccess := "Thank you for your payment. Your order will be deliverd soon!!!."

  /** The largest value an SQLite INTEGER holds; binding a larger Python int
      as a query parameter raises an OverflowError. */
  const SqliteMaxInteger := 0x7fff_ffff_ffff_ffff

  /** What a handler answers with. */
  datatype Response =
    | RedirectLogin
    | RedirectHome
    | RedirectPayment
    | LoginPage(error: Option<string>)
    | RegisterPage(error: Option<string>)
    | HomePage(foods: seq<Food>, orders: seq<CartLine>, totalAmount: int)
    | PaymentPage(totalAmount: int, successMessage: Option<string>)
    | PaymentConfirmationPage(confirmationMessage: Option<string>, confirmedAmount: Option<int>)
    | ThankYouPage(thankYouMessage: string)
    | BadRequest   // a required form field is missing (Flask answers 400)
    | ServerError  // the handler raised an exception it does not catch (500)

  /** An incoming request to a route that accepts both methods. */
  datatype Request = Get | Post(form: map<string, string>)

  /** The value of a query-string or form argument, when present. */
  function Arg(args: map<string, string>, key: string): (v: Option<string>)
    ensures v.Some? <==> key in args
    ensures v.Some? ==> v.value == args[key]
  {
    if key in args then Some(args[key]) else None
  }

  /** Everything the handlers can write except the session. */
  datatype Tables = Tables(users: seq<User>, foods: seq<Food>, orders: seq<Order>,
                           nextUserId: nat, nextFoodId: nat, nextOrderId: nat)

  class Store {
    var users: seq<User>
    var foods: seq<Food>
    var orders: seq<Order>
    // The next value each AUTOINCREMENT primary key hands out.
    var nextUserId: nat
    var nextFoodId: nat
    var nextOrderId: nat
    /** `session['username']`, when set. */
    var session: Option<string>

    /** The store's constraints: the UNIQUE and PRIMARY KEY columns, the
        autoincrement counters above every stored id, every order
        row owned by a stored user, and a session only for a stored user. */
    ghost predicate Valid()
      reads this
    {
      && UniqueUsernames(users)
      && UniqueUserIds(users)
      && (forall u :: u in users ==> u.id < nextUserId)
      && UniqueFoodIds(foods)
      && (forall f :: f in foods ==> f.id < nextFoodId)
      && UniqueOrderIds(orders)
      && (forall o :: o in orders ==> o.id < nextOrderId && UserIdExists(users, o.userId))
      && (session.Some? ==> UsernameTaken(users, session.value))
    }

    function Db(): Tables
      reads this
    {
      Tables(users, foods, orders, nextUserId, nextFoodId, nextOrderId)
    }

    /** The id of the logged-in user: `SELECT id FROM users WHERE username = ?`. */
    function SessionUserId(): (r: nat)
      reads this
      requires Valid() && session.Some?
      ensures UserIdExists(users, r)
      ensures forall u :: u in users && u.username == session.value ==> u.id == r
    {
      var u := FindUser(users, session.value).value;
      assert forall i :: 0 <= i < |users| && users[i].username == session.value ==> users[i] == u by {
        forall i | 0 <= i < |users| && users[i].username == session.value ensures users[i] == u {
          FindUserUnique(users, i);
        }
      }
      u.id
    }

    /** A fresh database: the three tables created empty, nobody logged in. */
    constructor ()
      ensures Valid()
      ensures Db() == Tables([], [], [], 1, 1, 1) && session == None
    {
      users, foods, orders := [], [], [];
      nextUserId, nextFoodId, nextOrderId := 1, 1, 1;
      session := None;
    }

    /** One `INSERT OR IGNORE INTO foods`. The only uniqueness constraint on
        `foods` is its primary key, and the autoincrement value is above every
        stored id, so the insert is never ignored. */
    method InsertSeedItem(item: SeedItem) returns (ignored: bool)
      requires Valid()
      modifies this
      ensures Valid() && !ignored
      ensures foods == old(foods) + [SeedRow(item, old(nextFoodId))]
      ensures nextFoodId == old(nextFoodId) + 1
      ensures users == old(users) && orders == old(orders) && session == old(session)
      ensures nextUserId == old(nextUserId) && nextOrderId == old(nextOrderId)
    {
      ignored := FoodExists(foods, nextFoodId);
      if !ignored {
        foods := foods + [SeedRow(item, nextFoodId)];
        nextFoodId := nextFoodId + 1;
      }
    }

    /** `init_db`: the tables already exist, so only the seed inserts take
        effect, and each call appends the whole menu again. */
    method InitDb()
      requires Valid()
      modifies this
      ensures Valid()
      ensures foods == old(foods) + SeedRows(SeedItems, old(nextFoodId))
      ensures nextFoodId == old(nextFoodId) + |SeedItems|
      ensures users == old(users) && orders == old(orders) && session == old(session)
      ensures nextUserId == old(nextUserId) && nextOrderId == old(nextOrderId)
    {
      for i := 0 to |SeedItems|
        invariant Valid()
        invariant foods == old(foods) + SeedRows(SeedItems[..i], old(nextFoodId))
        invariant nextFoodId == old(nextFoodId) + i
        invariant users == old(users) && orders == old(orders) && session == old(session)
        invariant nextUserId == old(nextUserId) && nextOrderId == old(nextOrderId)
      {
        var _ := InsertSeedItem(SeedItems[i]);
        assert SeedItems[..i + 1][..i] == SeedItems[..i];
      }
      assert SeedItems[..|SeedItems|] == SeedItems;
    }

    /** `/`: home when logged in, login otherwise. */
    method Index() returns (r: Response)
      ensures r == if session.Some? then RedirectHome else RedirectLogin
    {
      if session.Some? {
        r := RedirectHome;
      } else {
        r := RedirectLogin;
      }
    }

    /** `/login`. A POST logs in exactly when a row carries the username and
        its hash accepts the password; otherwise the session stays as it was. */
    method Login(request: Request, check: (string, string) -> bool) returns (r: Response)
      requires Valid()
      modifies this
      ensures Valid() && Db() == old(Db())
      ensures request.Get? ==> r == LoginPage(None) && session == old(session)
      ensures request.Post? && !("username" in request.form && "password" in request.form) ==>
                r == BadRequest && session == old(session)
      ensures request.Post? && "username" in request.form && "password" in request.form ==>
                var name, password := request.form["username"], request.form["password"];
                if Authenticate(users, name, password, check)
                then r == RedirectHome && session == Some(name)
                else r == LoginPage(Some(InvalidCredentials)) && session == old(session)
    {
      if request.Get? {
        return LoginPage(None);
      }
      if !("username" in request.form && "password" in request.form) {
        return BadRequest;
      }
      var name, password := request.form["username"], request.form["password"];
      if Authenticate(users, name, password, check) {
        session := Some(name);
        r := RedirectHome;
      } else {
        r := LoginPage(Some(InvalidCredentials));
      }
    }

    /** `/register`. `hashed` is what the hashing library produced for the
        posted password. A taken username is refused by the UNIQUE constraint
        and nothing is stored; otherwise exactly one row is added. */
    method Register(request: Request, hashed: string) returns (r: Response)
      requires Valid()
      modifies this
      ensures Valid()
      ensures session == old(session) && foods == old(foods) && orders == old(orders)
      ensures nextFoodId == old(nextFoodId) && nextOrderId == old(nextOrderId)
      ensures request.Get? ==> r == RegisterPage(None) && Db() == old(Db())
      ensures request.Post? && !("username" in request.form && "password" in request.form) ==>
                r == BadRequest && Db() == old(Db())
      ensures request.Post? && "username" in request.form && "password" in request.form ==>
                var name := request.form["username"];
                if UsernameTaken(old(users), name)
                then r == RegisterPage(Some(DuplicateUsername)) && Db() == old(Db())
                else r == RedirectLogin
                     && users == old(users) + [User(old(nextUserId), name, hashed)]
                     && nextUserId == old(nextUserId) + 1
                     && UsernameCount(users, name) == 1
    {
      if request.Get? {
        return RegisterPage(None);
      }
      if !("username" in request.form && "password" in request.form) {
        return BadRequest;
      }
      var name := request.form["username"];
      if UsernameTaken(users, name) {
        r := RegisterPage(Some(DuplicateUsername));
      } else {
        var u := User(nextUserId, name, hashed);
        RegisterAddsExactlyOneRow(users, u);
        StoredUsersStayStored(users, [u]);
        users := users + [u];
        nextUserId := nextUserId + 1;
        r := RedirectLogin;
      }
    }

    /** `/home`: the whole menu, the user's cart lines and their total. */
    method Home() returns (r: Response)
      requires Valid()
      ensures session.None? ==> r == RedirectLogin
      ensures session.Some? ==>
                var uid := SessionUserId();
                r == HomePage(foods, CartLines(orders, foods, uid), CartTotal(orders, foods, uid))
    {
      if session.None? {
        return RedirectLogin;
      }
      var uid := SessionUserId();
      var lines := CartLines(orders, foods, uid);
      r := HomePage(foods, lines, SumPrices(lines));
    }

    /** `/order/<food_id>`: one new order row, whether or not a food has
        that id. The route accepts any number of digits, but an id beyond
        SQLite's INTEGER range makes the INSERT raise: an internal error,
        with nothing stored. */
    method Order(foodId: nat) returns (r: Response)
      requires Valid()
      modifies this
      ensures Valid()
      ensures session == old(session)
      ensures old(session).None? ==> r == RedirectLogin && Db() == old(Db())
      ensures old(session).Some? && foodId > SqliteMaxInteger ==> r == ServerError && Db() == old(Db())
      ensures old(session).Some? && foodId <= SqliteMaxInteger ==>
                r == RedirectPayment
                && orders == old(orders) + [Rows.Order(old(nextOrderId), old(SessionUserId()), foodId)]
                && nextOrderId == old(nextOrderId) + 1
                && users == old(users) && foods == old(foods)
                && nextUserId == old(nextUserId) && nextFoodId == old(nextFoodId)
    {
      if session.None? {
        return RedirectLogin;
      }
      var uid := SessionUserId();
      if foodId > SqliteMaxInteger {
        return ServerError;
      }
      orders := orders + [Rows.Order(nextOrderId, uid, foodId)];
      nextOrderId := nextOrderId + 1;
      r := RedirectPayment;
    }

    /** `/delete_order`: every order row of the user is deleted, and only
        those. */
    method DeleteOrder() returns (r: Response)
      requires Valid()
      modifies this
      ensures Valid()
      ensures session == old(session)
      ensures old(session).None? ==> r == RedirectLogin && Db() == old(Db())
      ensures old(session).Some? ==>
                r == RedirectHome
                && orders == WithoutUser(old(orders), old(SessionUserId()))
                && users == old(users) && foods == old(foods)
                && nextUserId == old(nextUserId) && nextFoodId == old(nextFoodId)
                && nextOrderId == old(nextOrderId)
    {
      if session.None? {
        return RedirectLogin;
      }
      var uid := SessionUserId();
      WithoutUserKeepsOrderIds(orders, uid);
      orders := WithoutUser(orders, uid);
      r := RedirectHome;
    }

    /** `/logout`: the session username is dropped whether or not it was set,
        so logging out twice leaves the same state as logging out once. */
    method Logout() returns (r: Response)
      requires Valid()
      modifies this
      ensures Valid()
      ensures session == None && r == RedirectLogin && Db() == old(Db())
    {
      session := None;
      r := RedirectLogin;
    }

    /** `/payment`: back home when the user has no order rows at all, counting
        rows whose food is missing; otherwise the joined total. */
    method Payment(args: map<string, string>) returns (r: Response)
      requires Valid()
      ensures session.None? ==> r == RedirectLogin
      ensures session.Some? ==>
                var uid := SessionUserId();
                (r == RedirectHome <==> OrderCount(orders, uid) == 0)
                && (OrderCount(orders, uid) != 0 ==>
                      r == PaymentPage(PaymentTotal(orders, foods, uid), Arg(args, "success")))
    {
      if session.None? {
        return RedirectLogin;
      }
      var uid := SessionUserId();
      if OrderCount(orders, uid) == 0 {
        return RedirectHome;
      }
      var total := OrZero(SqlSum(CartLines(orders, foods, uid)));
      r := PaymentPage(total, Arg(args, "success"));
    }

    /** `/process_payment`. `toNumber` stands for Python's `float` on the
        posted `total_amount` (None when it raises). Once both fields are
        read, the user's order rows are deleted, and only then does the
        answer branch on the payment method. */
    method ProcessPayment(form: map<string, string>, toNumber: string -> Option<int>)
      returns (r: Response)
      requires Valid()
      modifies this
      ensures Valid()
      ensures session == old(session)
      ensures users == old(users) && foods == old(foods)
      ensures nextUserId == old(nextUserId) && nextFoodId == old(nextFoodId)
      ensures nextOrderId == old(nextOrderId)
      ensures old(session).None? ==> r == RedirectLogin && orders == old(orders)
      ensures old(session).Some? && !("payment_method" in form && "total_amount" in form) ==>
                r == BadRequest && orders == old(orders)
      ensures old(session).Some? && "payment_method" in form && "total_amount" in form
              && toNumber(form["total_amount"]).None? ==>
                r == ServerError && orders == old(orders)
      ensures old(session).Some? && "payment_method" in form && "total_amount" in form
              && toNumber(form["total_amount"]).Some? ==>
                orders == WithoutUser(old(orders), old(SessionUserId()))
                && r == (if form["payment_method"] == "online"
                         then PaymentConfirmationPage(Some(PaymentSuccess), None)
                         else if form["payment_method"] == "cash"
                         then ThankYouPage(PaymentSuccess)
                         else RedirectHome)
    {
      if session.None? {
        return RedirectLogin;
      }
      if "payment_method" !in form {
        return BadRequest;
      }
      var paymentMethod := form["payment_method"];
      if "total_amount" !in form {
        return BadRequest;
      }
      var totalAmount := toNumber(form["total_amount"]);
      if totalAmount.None? {
        return ServerError;
      }
      var uid := SessionUserId();
      WithoutUserKeepsOrderIds(orders, uid);
      orders := WithoutUser(orders, uid);
      if paymentMethod == "online" {
        r := PaymentConfirmationPage(Some(PaymentSuccess), None);
      } else if paymentMethod == "cash" {
        r := ThankYouPage(PaymentSuccess);
      } else {
        r := RedirectHome;
      }
    }

    /** `/payment_confirmation`: echoes the `total_amount` argument, or none
        when it is missing or not a number. */
    method PaymentConfirmation(args: map<string, string>, toNumber: string -> Option<int>)
      returns (r: Response)
      requires Valid()
      ensures session.None? ==> r == RedirectLogin
      ensures session.Some? ==>
                r == PaymentConfirmationPage(None,
                       if "total_amount" in args then toNumber(args["total_amount"]) else None)
    {
      if session.None? {
        return RedirectLogin;
      }
      var total := None;
      if "total_amount" in args {
        total := toNumber(args["total_amount"]);
      }
      r := PaymentConfirmationPage(None, total);
    }
  }

  /** Rows stay stored when more users are appended. */
  lemma StoredUsersStayStored(users: seq<User>, more: seq<User>)
    ensures forall id :: UserIdExists(users, id) ==> UserIdExists(users + more, id)
    ensures forall name :: UsernameTaken(users, name) ==> UsernameTaken(users + more, name)
  {
    forall id | UserIdExists(users, id) ensures UserIdExists(users + more, id) {
      var i :| 0 <= i < |users| && users[i].id == id;
      assert (users + more)[i] == users[i];
    }
    forall name | UsernameTaken(users, name) ensures UsernameTaken(users + more, name) {
      var i :| 0 <= i < |users| && users[i].username == name;
      assert (users + more)[i] == users[i];
    }
  }
}
