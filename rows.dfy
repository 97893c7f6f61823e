/** Rows of the three tables of the food-ordering store, and the rows of the
    cart listing that the home and payment pages join out of them.
    Prices are whole cents (the database column is a REAL). */
module Rows {

  datatype Option<+T> = None | Some(value: T)

  /** A row of `users`: autoincrement id, UNIQUE username, salted password hash. */
  datatype User = User(id: nat, username: string, passwordHash: string)

  /** A row of `foods`: autoincrement id, name, price in cents, image path. */
  datatype Food = Food(id: nat, name: string, price: int, image: string)

  /** A row of `orders`: one unit of one food for one user. The foreign keys
      are declared but not enforced, so `foodId` may name no food. */
  datatype Order = Order(id: nat, userId: nat, foodId: nat)

  /** A row of `orders JOIN foods`: (orders.id, foods.name, foods.image, foods.price). */
  datatype CartLine = CartLine(orderId: nat, name: string, image: string, price: int)
}
