# food_order: the order store as a verified state machine

A Dafny model of the Flask food-ordering application in `app.py`. The
handlers are modelled without Flask or SQLite. Each route becomes one
method on a `Store` object. The object holds the three tables (`users`,
`foods`, `orders`) as sequences of rows, the next value of each
AUTOINCREMENT key, and the browser session's `username`. A handler's page or
redirect is a `Response` value. Every SQL query a handler runs is a pure
function over the rows, and the lemmas state the rules the handlers keep:

- the UNIQUE username guard on registration;
- login exactly when the name is stored and its hash accepts the password;
- a redirect to login, with no table changed, on every protected route
  when nobody is logged in;
- ordering appends exactly one row, even for a food id that names no food;
- clearing the cart, and paying, delete exactly the user's rows;
- the cart total is the join-filtered sum of prices;
- the payment gate counts rows whose food is missing; the sum ignores them.

Files:

- `rows.dfy` (`Rows`): the rows of the three tables and of the cart join.
- `queries.dfy` (`Queries`): the SELECT, COUNT, SUM and DELETE queries as
  functions, with the lemmas about them.
- `catalog.dfy` (`Catalog`): the eleven seed items, and what re-running the
  seed inserts does.
- `store.dfy` (`OrderApp`): the `Store` class with one method per route,
  and its invariant `Valid()`.
- `scenario.dfy` (`Scenario`): a client that registers alice, refuses a
  second alice, orders Pizza and Pasta, sees 18.98, and pays cash.

Prices are whole cents; the 10.99 of the seed menu is `1099`.

`Store.Valid()` is the store's invariant. It holds the UNIQUE constraint
on usernames and the PRIMARY KEY of all three tables. It keeps each
autoincrement counter above every id stored in its table, and it requires
every order row to belong to a stored user. It also requires that
a session only names a stored user. Every handler preserves `Valid()`,
because users are never deleted and login only sets the session for a
stored name. So the handlers' `user[0]` on a missing row cannot happen in
the model.

The `foods` table has no UNIQUE column. Its only uniqueness constraint is
the primary key, and new keys come from the autoincrement counter. So the
`INSERT OR IGNORE` seed statements never ignore anything.
`Store.InsertSeedItem` proves this, and `Store.InitDb` appends the whole
menu again on every call. `Catalog.ReseedingDuplicates` states the
consequence: each extra call adds one more row for every menu name.

Points where the code does less than the schema or the page flow suggest:

- `order` never checks the food id, and SQLite does not enforce the
  declared foreign keys by default. `Store.Order` accepts any id that fits
  an SQLite INTEGER; a larger one makes the INSERT raise, a 500 with
  nothing stored.
- `init_db` appends the whole menu on every call.
- `process_payment` has three outcomes after the DELETE: "online" renders
  the confirmation, "cash" the thank-you page, and any other method
  redirects home with the orders already deleted.
- `payment` gates on a `COUNT(*)` without the join, so rows whose food is
  missing count too, while the `SUM` over the join ignores them.

## Model

| member | source | states |
|---|---|---|
| `Queries.FindUser` | app.py:66-67 | the user lookup finds a row exactly when some row carries the name, and the row it returns is stored and carries that name |
| `Queries.UniqueUsernameCount` | app.py:16 | under the UNIQUE constraint, a name is carried by exactly one row when it is taken and by none otherwise |
| `Queries.RegisterAddsExactlyOneRow` | app.py:83-86 | inserting a free name keeps usernames unique and leaves exactly one row with that name |
| `Queries.FindUserUnique` | app.py:66-67 | under the UNIQUE constraint, `fetchone()` returns the one row that carries the name |
| `Queries.Authenticate` | app.py:69 | a successful login test implies a stored row with that name whose hash accepts the password |
| `Queries.AuthenticateIff` | app.py:66-73 | under the UNIQUE constraint, login succeeds iff some row carries the name and its hash accepts the password |
| `Queries.OrdersOf` | app.py:103-108 | the selection holds exactly the order rows whose user_id is the user's |
| `Queries.WithoutUser` | app.py:145 | after the DELETE, exactly the rows of other users remain |
| `Queries.WithoutUserKeepsOrderIds` | app.py:145 | the DELETE keeps the order ids pairwise distinct |
| `Queries.OrderCount` | app.py:167-172 | the count is zero iff no order row belongs to the user, and never exceeds the table size |
| `Queries.OrderCountIsOrdersOf` | app.py:167-172 | COUNT(*) counts exactly the rows the WHERE user_id selection returns |
| `Queries.OrdersOfAppend` | app.py:127 | an inserted row joins its owner's selection at its end, and nobody else's |
| `Queries.OrderCountAppend` | app.py:127 | an insert raises its owner's count by one and leaves every other count unchanged |
| `Queries.DeleteKeepsOthers` | app.py:141-145 | after the DELETE the user has no rows, and every other user keeps the same rows in the same order |
| `Queries.DeleteRemovesCount` | app.py:145 | the DELETE removes exactly as many rows as the user's count |
| `Queries.PriceOf` | app.py:106 | an order row for a food id that names no food is worth nothing |
| `Queries.PriceOfRow` | app.py:21-27 | under the primary key, a food's id is worth that row's price |
| `Queries.JoinFood` | app.py:106 | every joined line carries the order's id and the name, image and price of a stored food with the order's food id |
| `Queries.Joined` | app.py:103-109 | every joined line is the (id, name, image, price) of a joined order row and a food row whose id is that order's food id |
| `Queries.JoinFoodComplete` | app.py:106 | every food row with the order's food id yields its line in that order's join |
| `Queries.JoinedComplete` | app.py:103-109 | every matching (order row, food row) pair yields its line in the join |
| `Queries.CartLines` | app.py:103-109 | every cart line is the (id, name, image, price) of an order row of this user and the food row its food id names |
| `Queries.CartLinesComplete` | app.py:103-109 | every order row of this user whose food exists appears in the cart with that food's name, image and price |
| `Queries.SumPricesAppend` | app.py:112 | the sum over two runs of lines placed end to end is the sum of the two sums |
| `Queries.CartTotal` | app.py:103-112 | under the primary key on foods, the home total equals the reference sum: each of the user's orders adds its food's price, or nothing when the food is missing; other users' orders add nothing |
| `Queries.JoinFoodSingle` | app.py:106 | under the primary key, an order row joins to one line when its food exists and to none otherwise, and that line is worth the food's price |
| `Queries.OrderAddsPrice` | app.py:112-127 | a new order raises its owner's total by its food's price, or by nothing for a missing food, and leaves everyone else's total alone |
| `Queries.CartLinesWithinCount` | app.py:167-184 | the cart has at most as many lines as the count, and as many iff every one of the user's orders joins to a food |
| `Queries.UnmatchedOrdersAddNothing` | app.py:178-184 | when none of the user's orders joins, the total is 0 |
| `Queries.SqlSumNullIff` | app.py:178-184 | the payment SUM is NULL exactly when none of the user's order rows joins to a food row |
| `Queries.PaymentTotal` | app.py:178-184 | `SUM(...) or 0` on the payment page always equals the home page's total |
| `Catalog.SeedRows` | app.py:38-48 | one seed run appends one row per item, in statement order, with consecutive autoincrement ids |
| `Catalog.SeedNamesDistinct` | app.py:38-48 | the eleven menu names are pairwise distinct |
| `Catalog.ReseedingDuplicates` | app.py:20-48 | with no UNIQUE column on foods, every seed run adds one more row for each menu name |
| `OrderApp.Store.constructor` | app.py:13-36 | a fresh database has three empty tables, all counters at 1 and nobody logged in |
| `OrderApp.Store.InsertSeedItem` | app.py:38 | `INSERT OR IGNORE` is never ignored: the row is appended under the next autoincrement id |
| `OrderApp.Store.InitDb` | app.py:10-51 | each call appends the whole menu again under fresh ids and changes nothing else |
| `OrderApp.Store.SessionUserId` | app.py:101-102 | the `user[0]` of the session's user row is a stored user id, and every row carrying the session's name has that id |
| `OrderApp.Store.Index` | app.py:53-57 | `/` redirects home iff the session holds a username, else to login |
| `OrderApp.Store.Login` | app.py:59-74 | a GET renders the form; a POST missing a field is a 400; otherwise the session is set and the answer is home iff the login test passes, else the error is rendered and the session is unchanged; no table changes |
| `OrderApp.Store.Register` | app.py:76-91 | a taken name renders "Username already exists" and nothing is stored; otherwise exactly one row with the next id is appended, the name is then in exactly one row, and the answer redirects to login |
| `OrderApp.Store.Home` | app.py:93-115 | without a session redirects to login; otherwise renders the whole menu, the user's joined cart lines and their total |
| `OrderApp.Store.Order` | app.py:117-132 | without a session redirects to login and changes nothing; a food id above SQLite's INTEGER range is an internal error with nothing stored; otherwise appends exactly one (user, food) row, whether or not the food exists, and redirects to payment |
| `OrderApp.Store.DeleteOrder` | app.py:134-149 | without a session redirects to login and changes nothing; otherwise deletes exactly the user's order rows and redirects home |
| `OrderApp.Store.Logout` | app.py:151-154 | the session ends up empty whatever it held, no table changes, and the answer is the login redirect, so a second logout changes nothing |
| `OrderApp.Store.Payment` | app.py:156-190 | without a session redirects to login; otherwise redirects home iff the user's count is 0, else renders the joined total and the `success` argument |
| `OrderApp.Store.ProcessPayment` | app.py:192-223 | without a session or with a missing field nothing changes; an unparsable amount fails before the DELETE; otherwise the user's rows are deleted, then "online" renders the confirmation, "cash" the thank-you page, anything else redirects home |
| `OrderApp.Store.PaymentConfirmation` | app.py:225-231 | without a session redirects to login; otherwise renders the confirmation with the `total_amount` argument when it is a number |
| `Scenario.AliceOrdersAndPaysCash` | app.py:76-223 | on a fresh store: the second registration of alice is refused, two orders (Pizza, Pasta) total 18.98, and a cash payment leaves alice with no orders |

## Left out

- Flask plumbing: routing, `url_for`, `render_template` and the template
  files. A handler's result is a `Response` value. Requests with an HTTP
  method a route does not accept (405), and food ids that are not whole
  numbers (404 from the `<int:food_id>` converter), never reach a handler
  and are not modelled.
- SQLite connections, `commit` and `close`, and the DDL text. The tables
  are sequences holding the same constraints. `CREATE TABLE IF NOT EXISTS`
  is the `Store` constructor (empty tables) followed by `InitDb`, which only
  inserts.
- Password hashing is a foreign call. `Register` receives the hash that
  `generate_password_hash` produced as an input. `Login` receives
  `check_password_hash` as a function parameter.
- Floating point: prices are integer cents, so the float sums SQL and
  Python compute are not modelled with their rounding. A posted or
  query-string `total_amount` enters through a conversion parameter
  (`toNumber`). `ProcessPayment` uses it only to fail with an internal
  error before the DELETE when the conversion would raise.
- A session naming a user row that no longer exists (the handlers crash on
  `user[0]`) is excluded by `Store.Valid()`, which every handler preserves.
- Queries.CartLines and OrderApp.Store.Home: SQL does not promise an order for the
  rows of a JOIN. The model lists them in order-table order, then food-table
  order.
- One browser session is modelled. Several concurrent clients, the secret
  key, `app.run` and the debug server are not part of this model.
- Autoincrement is a counter per table that never reuses a value. A
  refused registration does not advance it, as in SQLite.
