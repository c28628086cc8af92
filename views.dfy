/** The request handlers of views.py as methods of one store. The store
    holds the tables the handlers read and write; each handler takes the
    requesting actor and the request's parameters, answers with a status,
    and changes only the tables its `modifies` clause names. */
module Views {
  import opened Types
  import opened Roles
  import opened Serializers
  import opened Tables

  class Store {
    /** `User`: user id by username. */
    var users: map<string, UserId>
    /** `Group`: the member ids of each existing group, by group name. */
    var groups: map<string, set<UserId>>
    var menuItems: map<MenuItemId, MenuItem>
    var carts: seq<CartLine>
    var orders: map<OrderId, Order>
    var orderItems: seq<OrderItem>
    /** The next primary key the order table hands out. */
    var nextOrderId: OrderId

    ghost predicate Valid()
      reads this
    {
      && (forall g :: g in groups ==> groups[g] <= users.Values)
      && Priced(carts)
      && OneLinePerItem(carts)
      && (forall id :: id in orders ==> id < nextOrderId)
    }

    constructor (users: map<string, UserId>, groups: map<string, set<UserId>>,
                 menuItems: map<MenuItemId, MenuItem>, orderItems: seq<OrderItem>)
      requires forall g :: g in groups ==> groups[g] <= users.Values
      ensures Valid()
      ensures this.users == users && this.groups == groups && this.menuItems == menuItems
      ensures this.orderItems == orderItems
      ensures carts == [] && orders == map[]
    {
      this.users := users;
      this.groups := groups;
      this.menuItems := menuItems;
      this.orderItems := orderItems;
      carts := [];
      orders := map[];
      nextOrderId := 0;
    }

    // -------------------------------------------------------------------
    // ManagerListAddView and DeleteFromGroupView (Manager only)
    // -------------------------------------------------------------------

    /** GET on a group path: the users in the group the path names. With no
        role in the path the lookup is `groups__name=None`, which Django
        reads as "in no group at all". */
    function GroupMembers(actor: Actor, path: string): (r: (Status, set<UserId>))
      reads this
      ensures r.0 == (if IsManager(groups, actor) then Ok else Denial(actor))
      ensures r.0 != Ok ==> r.1 == {}
      ensures r.0 == Ok && ExtractRoleName(path).Some? ==>
                forall u :: u in r.1 <==> u in users.Values && Member(groups, ExtractRoleName(path).value, u)
      ensures r.0 == Ok && ExtractRoleName(path).None? ==>
                forall u :: u in r.1 <==> u in users.Values && forall g :: g in groups ==> u !in groups[g]
    {
      if !IsManager(groups, actor) then (Denial(actor), {})
      else
        match ExtractRoleName(path)
        case Some(role) => (Ok, set u | u in users.Values && Member(groups, role, u))
        case None => (Ok, set u | u in users.Values && forall g :: g in groups ==> u !in groups[g])
    }

    /** POST on a group path: add the named user to the group the path
        names. */
    method AddGroupMember(actor: Actor, path: string, username: Option<string>) returns (st: Status)
      requires Valid()
      modifies this`groups
      ensures Valid()
      ensures !IsManager(old(groups), actor) ==> st == Denial(actor) && groups == old(groups)
      ensures IsManager(old(groups), actor) ==>
                var role := ExtractRoleName(path);
                if username.None? || username.value == "" then st == BadRequest && groups == old(groups)
                else if username.value !in users then st == NotFound && groups == old(groups)
                else if role.None? || role.value !in old(groups) then st == ServerError && groups == old(groups)
                else if Member(old(groups), role.value, users[username.value]) then
                  st == BadRequest && groups == old(groups)
                else
                  st == Created && groups == AddMember(old(groups), role.value, users[username.value])
      ensures st == Created <==> groups != old(groups)
      ensures st == Created ==>
                && username.Some? && username.value in users && ExtractRoleName(path).Some?
                && !Member(old(groups), ExtractRoleName(path).value, users[username.value])
                && Member(groups, ExtractRoleName(path).value, users[username.value])
    {
      if !IsManager(groups, actor) {
        return Denial(actor);
      }
      var role := ExtractRoleName(path);
      if username.None? || username.value == "" {
        return BadRequest;
      }
      if username.value !in users {
        return NotFound;
      }
      var u := users[username.value];
      if role.None? || role.value !in groups {
        // Group.objects.get raises an exception nobody catches
        return ServerError;
      }
      if Member(groups, role.value, u) {
        return BadRequest;
      }
      groups := AddMember(groups, role.value, u);
      st := Created;
    }

    /** DELETE on a group path: take the named user out of the group the
        path names, whether or not they were in it. */
    method RemoveGroupMember(actor: Actor, path: string, username: Option<string>) returns (st: Status)
      requires Valid()
      modifies this`groups
      ensures Valid()
      ensures !IsManager(old(groups), actor) ==> st == Denial(actor) && groups == old(groups)
      ensures IsManager(old(groups), actor) ==>
                var role := ExtractRoleName(path);
                if username.None? || username.value == "" then st == BadRequest && groups == old(groups)
                else if username.value !in users then st == NotFound && groups == old(groups)
                else if role.None? || role.value !in old(groups) then st == ServerError && groups == old(groups)
                else st == Ok && groups == RemoveMember(old(groups), role.value, users[username.value])
      ensures st != Ok ==> groups == old(groups)
      ensures st == Ok ==>
                && username.Some? && username.value in users && ExtractRoleName(path).Some?
                && !Member(groups, ExtractRoleName(path).value, users[username.value])
    {
      if !IsManager(groups, actor) {
        return Denial(actor);
      }
      var role := ExtractRoleName(path);
      if username.None? || username.value == "" {
        return BadRequest;
      }
      if username.value !in users {
        return NotFound;
      }
      var u := users[username.value];
      if role.None? || role.value !in groups {
        // Group.objects.get raises an exception nobody catches
        return ServerError;
      }
      groups := RemoveMember(groups, role.value, u);
      st := Ok;
    }

    // -------------------------------------------------------------------
    // CartView (authenticated users)
    // -------------------------------------------------------------------

    /** GET: the caller's own cart lines, in table order. */
    function CartLines(actor: Actor): (r: (Status, seq<CartLine>))
      reads this
      ensures actor.Anonymous? ==> r == (Unauthorized, [])
      ensures actor.Authenticated? ==>
                r.0 == Ok && forall l :: l in r.1 <==> l in carts && l.user == actor.id
    {
      if actor.Anonymous? then (Unauthorized, []) else (Ok, LinesOf(carts, actor.id))
    }

    /** POST: validate the body with the cart serializer and save the line. */
    method AddToCart(actor: Actor, data: CartPayload) returns (st: Status)
      requires Valid()
      modifies this`carts
      ensures Valid()
      ensures actor.Anonymous? ==> st == Unauthorized && carts == old(carts)
      ensures actor.Authenticated? ==>
                match ValidateCartLine(data, actor.id, users.Values, menuItems.Keys, CartKeys(old(carts)))
                case Failure(_) => st == BadRequest && carts == old(carts)
                case Success(line) => st == Created && carts == old(carts) + [line]
    {
      if actor.Anonymous? {
        return Unauthorized;
      }
      match ValidateCartLine(data, actor.id, users.Values, menuItems.Keys, CartKeys(carts))
      case Failure(_) =>
        st := BadRequest;
      case Success(line) =>
        AppendOneLinePerItem(carts, line);
        carts := carts + [line];
        st := Created;
    }

    /** DELETE: remove every line of the caller's cart; always "ok". */
    method ClearCart(actor: Actor) returns (st: Status)
      requires Valid()
      modifies this`carts
      ensures Valid()
      ensures actor.Anonymous? ==> st == Unauthorized && carts == old(carts)
      ensures actor.Authenticated? ==> st == Ok && carts == Without(old(carts), actor.id)
      ensures actor.Authenticated? ==> LinesOf(carts, actor.id) == []
      ensures forall v :: actor != Authenticated(v) ==> LinesOf(carts, v) == LinesOf(old(carts), v)
    {
      if actor.Anonymous? {
        return Unauthorized;
      }
      ghost var before := carts;
      carts := Without(carts, actor.id);
      forall v ensures LinesOf(carts, v) == if v == actor.id then [] else LinesOf(before, v) {
        WithoutScopes(before, actor.id, v);
      }
      WithoutOneLinePerItem(before, actor.id);
      st := Ok;
    }

    // -------------------------------------------------------------------
    // OrdersView
    // -------------------------------------------------------------------

    /** GET: a Manager sees every order, otherwise a delivery-crew member the
        orders assigned to them, otherwise a signed-in user the orders they
        placed; an anonymous request is refused. */
    function ListOrders(actor: Actor): (r: (Status, map<OrderId, Order>))
      reads this
      ensures r.0 == Unauthorized <==> actor.Anonymous?
      ensures r.0 != Unauthorized ==> r.0 == Ok
      ensures actor.Anonymous? ==> r.1 == map[]
      ensures forall id :: id in r.1 ==> id in orders && r.1[id] == orders[id]
      ensures IsManager(groups, actor) ==> r.1 == orders
      ensures !IsManager(groups, actor) && IsDeliveryCrew(groups, actor) ==>
                forall id :: id in r.1 <==> id in orders && orders[id].crew == Some(actor.id)
      ensures !IsManager(groups, actor) && !IsDeliveryCrew(groups, actor) && actor.Authenticated? ==>
                forall id :: id in r.1 <==> id in orders && orders[id].owner == actor.id
    {
      if IsManager(groups, actor) then (Ok, orders)
      else if IsDeliveryCrew(groups, actor) then (Ok, AssignedTo(orders, actor.id))
      else if actor.Authenticated? then (Ok, OwnedBy(orders, actor.id))
      else (Unauthorized, map[])
    }

    /** POST: turn the caller's cart into one new order dated `date`, then
        delete the cart. `orderDataValid` is the verdict of the order
        serializer on the assembled row, whose field limits live in the
        models. No order-item rows are written. */
    method PlaceOrder(caller: UserId, date: string, orderDataValid: bool) returns (st: Status, placed: Option<OrderId>)
      requires Valid()
      modifies this`orders, this`nextOrderId, this`carts
      ensures Valid()
      ensures old(LinesOf(carts, caller)) == [] ==>
                st == BadRequest && placed == None && orders == old(orders) && carts == old(carts)
      ensures old(LinesOf(carts, caller)) != [] && !orderDataValid ==>
                st == BadRequest && placed == None && orders == old(orders) && carts == old(carts)
      ensures old(LinesOf(carts, caller)) != [] && orderDataValid ==>
                && st == Created && placed.Some? && placed.value !in old(orders)
                && orders == old(orders)[placed.value := Order(caller, None, false, date, SumPrices(old(LinesOf(carts, caller))))]
                && carts == Without(old(carts), caller)
      ensures st == Created ==>
                && orders[placed.value].total == SumSubtotals(old(LinesOf(carts, caller)))
                && LinesOf(carts, caller) == []
                && forall v :: v != caller ==> LinesOf(carts, v) == LinesOf(old(carts), v)
      ensures carts != old(carts) ==> st == Created
    {
      var cartItems := LinesOf(carts, caller);
      if cartItems == [] {
        return BadRequest, None;
      }
      var total := SumPrices(cartItems);
      if !orderDataValid {
        return BadRequest, None;
      }
      // order_serializer.save()
      var id := nextOrderId;
      orders := orders[id := Order(caller, None, false, date, total)];
      nextOrderId := nextOrderId + 1;
      // cart_items.delete()
      ghost var before := carts;
      carts := Without(carts, caller);
      PricedTotal(cartItems);
      forall v ensures LinesOf(carts, v) == if v == caller then [] else LinesOf(before, v) {
        WithoutScopes(before, caller, v);
      }
      WithoutOneLinePerItem(before, caller);
      st, placed := Created, Some(id);
    }

    // -------------------------------------------------------------------
    // OrderIdView
    // -------------------------------------------------------------------

    /** PUT: a Manager rewrites `delivery_crew` and `status`. The order is
        looked up before the role is checked. */
    method UpdateOrder(actor: Actor, id: OrderId, data: OrderPayload) returns (st: Status)
      requires Valid()
      modifies this`orders
      ensures Valid()
      ensures id !in old(orders) ==> st == NotFound && orders == old(orders)
      ensures id in old(orders) && !IsManager(groups, actor) ==> st == Forbidden && orders == old(orders)
      ensures id in old(orders) && IsManager(groups, actor) ==>
                match UpdateOrderFields(old(orders)[id], data, users.Values)
                case Failure(_) => st == BadRequest && orders == old(orders)
                case Success(o) => st == Ok && orders == old(orders)[id := o]
      ensures orders.Keys == old(orders).Keys
      ensures forall k :: k in orders ==>
                && orders[k].owner == old(orders)[k].owner
                && orders[k].date == old(orders)[k].date
                && orders[k].total == old(orders)[k].total
                && (k != id ==> orders[k] == old(orders)[k])
    {
      if id !in orders {
        return NotFound;
      }
      var order := orders[id];
      if !IsManager(groups, actor) {
        return Forbidden;
      }
      match UpdateOrderFields(order, data, users.Values)
      case Failure(_) =>
        st := BadRequest;
      case Success(o) =>
        orders := orders[id := o];
        st := Ok;
    }

    /** PATCH: a delivery-crew member sets `status`. For anyone else, or when
        the body does not validate, the handler returns nothing. */
    method PatchOrder(actor: Actor, id: OrderId, data: OrderPayload) returns (st: Status)
      requires Valid()
      modifies this`orders
      ensures Valid()
      ensures id !in old(orders) ==> st == NotFound && orders == old(orders)
      ensures id in old(orders) && !IsDeliveryCrew(groups, actor) ==> st == NoResponse && orders == old(orders)
      ensures id in old(orders) && IsDeliveryCrew(groups, actor) ==>
                match PatchOrderFields(old(orders)[id], data)
                case Failure(_) => st == NoResponse && orders == old(orders)
                case Success(o) => st == Ok && orders == old(orders)[id := o]
      ensures orders.Keys == old(orders).Keys
      ensures forall k :: k in orders ==>
                && orders[k].owner == old(orders)[k].owner
                && orders[k].crew == old(orders)[k].crew
                && orders[k].date == old(orders)[k].date
                && orders[k].total == old(orders)[k].total
                && (k != id ==> orders[k] == old(orders)[k])
    {
      if id !in orders {
        return NotFound;
      }
      var order := orders[id];
      st := NoResponse;
      if IsDeliveryCrew(groups, actor) {
        match PatchOrderFields(order, data)
        case Failure(_) =>
        case Success(o) =>
          orders := orders[id := o];
          st := Ok;
      }
    }

    /** DELETE: a Manager removes the order. The role is checked before the
        order is looked up. */
    method DeleteOrder(actor: Actor, id: OrderId) returns (st: Status)
      requires Valid()
      modifies this`orders
      ensures Valid()
      ensures !IsManager(groups, actor) ==> st == Forbidden && orders == old(orders)
      ensures IsManager(groups, actor) && id !in old(orders) ==> st == NotFound && orders == old(orders)
      ensures IsManager(groups, actor) && id in old(orders) ==> st == Ok && orders == old(orders) - {id}
    {
      if !IsManager(groups, actor) {
        return Forbidden;
      }
      if id !in orders {
        return NotFound;
      }
      orders := orders - {id};
      st := Ok;
    }

    // -------------------------------------------------------------------
    // SingleMenuItemView writes (permission first, then lookup)
    // -------------------------------------------------------------------

    /** PUT or PATCH on one menu item: Manager only; the category is
        read-only. */
    method UpdateMenuItem(actor: Actor, verb: string, id: MenuItemId, data: MenuItemPayload) returns (st: Status)
      requires verb == "PUT" || verb == "PATCH"
      requires Valid()
      modifies this`menuItems
      ensures Valid()
      ensures !MenuItemPermits(groups, actor, verb) ==> st == Denial(actor) && menuItems == old(menuItems)
      ensures MenuItemPermits(groups, actor, verb) && id !in old(menuItems) ==>
                st == NotFound && menuItems == old(menuItems)
      ensures MenuItemPermits(groups, actor, verb) && id in old(menuItems) ==>
                match WriteMenuItemFields(old(menuItems)[id], data)
                case Failure(_) => st == BadRequest && menuItems == old(menuItems)
                case Success(item) => st == Ok && menuItems == old(menuItems)[id := item]
      ensures menuItems.Keys == old(menuItems).Keys
      ensures forall k :: k in menuItems ==> menuItems[k].category == old(menuItems)[k].category
    {
      if !MenuItemPermits(groups, actor, verb) {
        return Denial(actor);
      }
      if id !in menuItems {
        return NotFound;
      }
      match WriteMenuItemFields(menuItems[id], data)
      case Failure(_) =>
        st := BadRequest;
      case Success(item) =>
        menuItems := menuItems[id := item];
        st := Ok;
    }

    /** DELETE on one menu item: Manager only. */
    method DeleteMenuItem(actor: Actor, id: MenuItemId) returns (st: Status)
      requires Valid()
      modifies this`menuItems
      ensures Valid()
      ensures !MenuItemPermits(groups, actor, "DELETE") ==> st == Denial(actor) && menuItems == old(menuItems)
      ensures MenuItemPermits(groups, actor, "DELETE") && id !in old(menuItems) ==>
                st == NotFound && menuItems == old(menuItems)
      ensures MenuItemPermits(groups, actor, "DELETE") && id in old(menuItems) ==>
                st == NoContent && menuItems == old(menuItems) - {id}
    {
      if !MenuItemPermits(groups, actor, "DELETE") {
        return Denial(actor);
      }
      if id !in menuItems {
        return NotFound;
      }
      menuItems := menuItems - {id};
      st := NoContent;
    }
  }

  /** A client of the handlers: a user puts two of a 9.50 item in the cart
      and places an order for 19.00, after which the cart is empty. */
  method PlaceOrderExample()
  {
    var alice, bob, carol := 1, 2, 3;
    var users := map["alice" := alice, "bob" := bob, "carol" := carol];
    var groups := map[MANAGER_GROUP := {bob}, CREW_GROUP := {carol}];
    var item := MenuItem(7, "Lemon Dessert", 950, 1, false);
    assert users["bob"] == bob && users["carol"] == carol;
    var store := new Store(users, groups, map[7 := item], []);

    var st := store.AddToCart(Authenticated(alice), CartPayload(Absent, Given(7), Given(950), Given(2), Given(1)));
    assert st == Created && store.carts == [CartLine(alice, 7, 950, 2, 1900)];

    var placed;
    st, placed := store.PlaceOrder(alice, "2024-01-01", true);
    assert LinesOf([CartLine(alice, 7, 950, 2, 1900)], alice) == [CartLine(alice, 7, 950, 2, 1900)];
    assert st == Created && placed.Some?;
    assert store.orders[placed.value] == Order(alice, None, false, "2024-01-01", 1900);
    assert store.CartLines(Authenticated(alice)).1 == [];
  }

  /** A client of the handlers: the order's owner may not assign it, a
      manager assigns it to a delivery-crew member, who marks it delivered;
      only a manager may delete it. */
  method OrderMutationExample(store: Store, id: OrderId, alice: UserId, bob: UserId, carol: UserId)
    requires store.Valid()
    requires id in store.orders && store.orders[id] == Order(alice, None, false, "2024-01-01", 1900)
    requires store.groups == map[MANAGER_GROUP := {bob}, CREW_GROUP := {carol}]
    requires carol in store.users.Values && alice != bob && alice != carol && bob != carol
    modifies store
  {
    var st := store.UpdateOrder(Authenticated(alice), id, OrderPayload(Absent, Given(Some(carol)), Absent, Absent, Absent));
    assert st == Forbidden;
    st := store.UpdateOrder(Authenticated(bob), id, OrderPayload(Absent, Given(Some(carol)), Absent, Absent, Given(0)));
    assert st == Ok && store.orders[id] == Order(alice, Some(carol), false, "2024-01-01", 1900);
    st := store.PatchOrder(Authenticated(carol), id, OrderPayload(Absent, Absent, Given(true), Absent, Absent));
    assert st == Ok && store.orders[id].delivered && store.orders[id].total == 1900;
    st := store.DeleteOrder(Authenticated(carol), id);
    assert st == Forbidden && id in store.orders;
  }
}
