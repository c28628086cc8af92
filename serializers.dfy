/** The field rules of serializers.py: which attributes a request body may
    set on a cart line, an order or a menu item, and the cart-line price
    rule. Validation problems are reported by kind only; the framework turns
    any of them into a 400 answer. */
module Serializers {
  import opened Types

  datatype FieldError =
    | MissingField      // a required field is absent
    | MalformedField    // a field holds a value it does not accept
    | UnknownReference  // a primary key names no stored row
    | DuplicateLine     // the (user, menuitem) pair already has a cart line

  // ---------------------------------------------------------------------
  // CartSerializer
  // ---------------------------------------------------------------------

  /** A cart request body: every field the serializer lists. */
  datatype CartPayload = CartPayload(
    user: Field<UserId>,
    menuitem: Field<MenuItemId>,
    unitPrice: Field<int>,
    quantity: Field<int>,
    price: Field<int>)

  /** The validated attributes handed to `validate`; `price` is absent until
      `validate` computes it. */
  datatype CartAttrs = CartAttrs(user: UserId, menuitem: MenuItemId, unitPrice: int, quantity: int, price: Option<int>)

  /** `CartSerializer.validate`: sets the price to quantity times unit
      price and leaves every other attribute as it was. */
  function ValidateAttrs(attrs: CartAttrs): (r: CartAttrs)
    ensures r.price.Some? && r.price.value == r.quantity * r.unitPrice
    ensures r.(price := attrs.price) == attrs
  {
    attrs.(price := Some(attrs.quantity * attrs.unitPrice))
  }

  /** Field-level rules: `quantity`, `menuitem` and `unit_price` are
      required; `user` defaults to the requesting user and must name a stored
      user when given; `menuitem` must name a stored menu item; `price` is
      read-only and never consulted. */
  function CartFields(data: CartPayload, requestUser: UserId, users: set<UserId>, menuItems: set<MenuItemId>)
    : (r: Result<CartAttrs, FieldError>)
    ensures data.quantity.Absent? ==> r.Failure?
    ensures r.Success? <==>
              && data.quantity.Given? && data.menuitem.Given? && data.unitPrice.Given?
              && !data.user.Malformed? && (data.user.Given? ==> data.user.value in users)
              && data.menuitem.value in menuItems
    ensures r.Success? ==>
              && r.value.user == (if data.user.Given? then data.user.value else requestUser)
              && data.menuitem == Given(r.value.menuitem)
              && data.unitPrice == Given(r.value.unitPrice)
              && data.quantity == Given(r.value.quantity)
              && r.value.price == None
  {
    if data.quantity.Absent? || data.menuitem.Absent? || data.unitPrice.Absent? then
      Failure(MissingField)
    else if data.quantity.Malformed? || data.menuitem.Malformed? || data.unitPrice.Malformed? || data.user.Malformed? then
      Failure(MalformedField)
    else if (data.user.Given? && data.user.value !in users) || data.menuitem.value !in menuItems then
      Failure(UnknownReference)
    else
      var user := if data.user.Given? then data.user.value else requestUser;
      Success(CartAttrs(user, data.menuitem.value, data.unitPrice.value, data.quantity.value, None))
  }

  /** `is_valid()` of a CartSerializer followed by the row it saves: field
      rules, then the one-line-per-(user, menuitem) rule against the pairs
      already `taken`, then `validate`. */
  function ValidateCartLine(
    data: CartPayload, requestUser: UserId, users: set<UserId>, menuItems: set<MenuItemId>,
    taken: set<(UserId, MenuItemId)>)
    : (r: Result<CartLine, FieldError>)
    ensures data.quantity.Absent? ==> r.Failure?
    ensures r.Success? <==>
              && CartFields(data, requestUser, users, menuItems).Success?
              && (CartFields(data, requestUser, users, menuItems).value.user, data.menuitem.value) !in taken
    ensures r.Success? ==>
              && r.value.price == r.value.quantity * r.value.unitPrice
              && r.value.user == (if data.user.Given? then data.user.value else requestUser)
              && r.value.user in users + {requestUser}
              && r.value.menuitem in menuItems
              && (r.value.user, r.value.menuitem) !in taken
              && data.menuitem == Given(r.value.menuitem)
              && data.unitPrice == Given(r.value.unitPrice)
              && data.quantity == Given(r.value.quantity)
  {
    match CartFields(data, requestUser, users, menuItems)
    case Failure(e) => Failure(e)
    case Success(attrs) =>
      if (attrs.user, attrs.menuitem) in taken then Failure(DuplicateLine)
      else
        var v := ValidateAttrs(attrs);
        Success(CartLine(v.user, v.menuitem, v.unitPrice, v.quantity, v.price.value))
  }

  /** A client-supplied price never reaches the saved line. */
  lemma ClientPriceIgnored(
    data: CartPayload, p: Field<int>, requestUser: UserId, users: set<UserId>, menuItems: set<MenuItemId>,
    taken: set<(UserId, MenuItemId)>)
    ensures ValidateCartLine(data.(price := p), requestUser, users, menuItems, taken)
         == ValidateCartLine(data, requestUser, users, menuItems, taken)
  {
  }

  /** `validate` is idempotent, and the price it sets does not depend on any
      price already present. */
  lemma ValidateAttrsIdempotent(attrs: CartAttrs, p: Option<int>)
    ensures ValidateAttrs(ValidateAttrs(attrs)) == ValidateAttrs(attrs)
    ensures ValidateAttrs(attrs.(price := p)) == ValidateAttrs(attrs)
  {
  }

  // ---------------------------------------------------------------------
  // PatchOrderSerializer and UpdateOrderSerializer
  // ---------------------------------------------------------------------

  /** An order request body: every column of the order a client might send. */
  datatype OrderPayload = OrderPayload(
    user: Field<UserId>,
    crew: Field<Option<UserId>>,
    status: Field<bool>,
    date: Field<string>,
    total: Field<int>)

  /** `PatchOrderSerializer(order, data, partial=True)` validated and saved:
      only `status` is writable. */
  function PatchOrderFields(order: Order, data: OrderPayload): (r: Result<Order, FieldError>)
    ensures r.Success? <==> !data.status.Malformed?
    ensures r.Success? ==>
              && r.value.owner == order.owner && r.value.crew == order.crew
              && r.value.date == order.date && r.value.total == order.total
              && r.value.delivered == (if data.status.Given? then data.status.value else order.delivered)
  {
    match data.status
    case Malformed => Failure(MalformedField)
    case Absent => Success(order)
    case Given(s) => Success(order.(delivered := s))
  }

  /** `UpdateOrderSerializer(order, data)` validated and saved: only
      `delivery_crew` and `status` are writable; a crew given as a user id
      must name a stored user, and `null` clears it. */
  function UpdateOrderFields(order: Order, data: OrderPayload, users: set<UserId>): (r: Result<Order, FieldError>)
    ensures r.Success? <==>
              && !data.status.Malformed? && !data.crew.Malformed?
              && (data.crew.Given? && data.crew.value.Some? ==> data.crew.value.value in users)
    ensures r.Success? ==>
              && r.value.owner == order.owner && r.value.date == order.date && r.value.total == order.total
              && r.value.crew == (if data.crew.Given? then data.crew.value else order.crew)
              && r.value.delivered == (if data.status.Given? then data.status.value else order.delivered)
  {
    if data.status.Malformed? || data.crew.Malformed? then Failure(MalformedField)
    else if data.crew.Given? && data.crew.value.Some? && data.crew.value.value !in users then Failure(UnknownReference)
    else
      var withCrew := if data.crew.Given? then order.(crew := data.crew.value) else order;
      Success(if data.status.Given? then withCrew.(delivered := data.status.value) else withCrew)
  }

  /** Both order serializers read only their whitelisted fields. */
  lemma OrderWritesReadOnlyWhitelist(order: Order, d1: OrderPayload, d2: OrderPayload, users: set<UserId>)
    requires d1.crew == d2.crew && d1.status == d2.status
    ensures PatchOrderFields(order, d1) == PatchOrderFields(order, d2)
    ensures UpdateOrderFields(order, d1, users) == UpdateOrderFields(order, d2, users)
  {
  }

  /** A PUT that sends no `delivery_crew` does exactly what a PATCH does. */
  lemma UpdateWithoutCrewIsPatch(order: Order, data: OrderPayload, users: set<UserId>)
    requires data.crew.Absent?
    ensures UpdateOrderFields(order, data, users) == PatchOrderFields(order, data)
  {
  }

  /** Sending the same update twice leaves the order as sending it once. */
  lemma OrderWritesIdempotent(order: Order, data: OrderPayload, users: set<UserId>)
    ensures PatchOrderFields(order, data).Success? ==>
              PatchOrderFields(PatchOrderFields(order, data).value, data) == PatchOrderFields(order, data)
    ensures UpdateOrderFields(order, data, users).Success? ==>
              UpdateOrderFields(UpdateOrderFields(order, data, users).value, data, users)
              == UpdateOrderFields(order, data, users)
  {
  }

  // ---------------------------------------------------------------------
  // MenuItemSerializer
  // ---------------------------------------------------------------------

  /** A menu-item request body: every field the serializer lists. */
  datatype MenuItemPayload = MenuItemPayload(
    id: Field<MenuItemId>,
    title: Field<string>,
    price: Field<int>,
    category: Field<CategoryId>,
    featured: Field<bool>)

  /** `MenuItemSerializer(item, data)` validated and saved: `id` and
      `category` are read-only, `title`, `price` and `featured` are written
      when given. */
  function WriteMenuItemFields(item: MenuItem, data: MenuItemPayload): (r: Result<MenuItem, FieldError>)
    ensures r.Success? <==> !data.title.Malformed? && !data.price.Malformed? && !data.featured.Malformed?
    ensures r.Success? ==>
              && r.value.id == item.id && r.value.category == item.category
              && r.value.title == (if data.title.Given? then data.title.value else item.title)
              && r.value.price == (if data.price.Given? then data.price.value else item.price)
              && r.value.featured == (if data.featured.Given? then data.featured.value else item.featured)
  {
    if data.title.Malformed? || data.price.Malformed? || data.featured.Malformed? then Failure(MalformedField)
    else
      Success(MenuItem(
        item.id,
        if data.title.Given? then data.title.value else item.title,
        if data.price.Given? then data.price.value else item.price,
        item.category,
        if data.featured.Given? then data.featured.value else item.featured))
  }

  /** Whatever `category` or `id` a body carries, the write is the same. */
  lemma MenuItemCategoryReadOnly(item: MenuItem, data: MenuItemPayload, c: Field<CategoryId>, i: Field<MenuItemId>)
    ensures WriteMenuItemFields(item, data.(category := c, id := i)) == WriteMenuItemFields(item, data)
  {
  }
}
