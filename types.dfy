/** Shared vocabulary of the ordering backend: identifiers, the records the
    views and serializers work on, what a request body supplies, who makes a
    request and how a handler answers. The Django models file is not part of
    this model; each record carries only the columns that the views and the
    serializers read or write. Money is in integer minor units (cents). */
module Types {

  type UserId = nat
  type OrderId = nat
  type MenuItemId = nat
  type CategoryId = nat

  datatype Option<T> = None | Some(value: T)

  datatype Result<T, E> = Success(value: T) | Failure(error: E)

  /** What a request body holds for one serializer field: nothing, a value
      the field accepts, or a value the field rejects (wrong type, not a
      number, ...). */
  datatype Field<T> = Absent | Given(value: T) | Malformed

  /** The user a request is made by; `Anonymous` when no credentials came. */
  datatype Actor = Anonymous | Authenticated(id: UserId)

  /** HTTP outcomes the handlers produce: 200, 201, 204, 400, 401, 403, 404,
      500, and `NoResponse` for a handler that falls off its end and returns
      nothing (the framework then reports a server error). */
  datatype Status =
    | Ok
    | Created
    | NoContent
    | BadRequest
    | Unauthorized
    | Forbidden
    | NotFound
    | ServerError
    | NoResponse

  /** One row of the cart table: a pending quantity of one menu item. */
  datatype CartLine = CartLine(user: UserId, menuitem: MenuItemId, unitPrice: int, quantity: int, price: int)

  /** One row of the order table; `delivered` is the model's boolean `status`. */
  datatype Order = Order(owner: UserId, crew: Option<UserId>, delivered: bool, date: string, total: int)

  /** One row of the order-item table. Its `order` column holds a user
      key, not an order key: the docstring at LittleLemonAPI/views.py:188
      records that the column points at the User model. So deleting an
      order touches no order item. */
  datatype OrderItem = OrderItem(order: UserId, menuitem: MenuItemId, quantity: int, price: int)

  datatype MenuItem = MenuItem(id: MenuItemId, title: string, price: int, category: CategoryId, featured: bool)
}
