# Little Lemon ordering backend: verified model of the business rules

The Little Lemon API is a Django REST backend for a restaurant: staff manage
menu items, customers fill a cart and turn it into an order, managers assign
orders to delivery crew, and delivery crew mark them delivered. Most of the
repository is framework plumbing. The business rules sit in
`LittleLemonAPI/views.py` and `LittleLemonAPI/serializers.py`, and this
project models and proves them in Dafny:

- which group a request path names (`extract_role_name`);
- the permission checks: the `Manager` permission and the GET-versus-write
  gate on the menu-item views;
- adding users to and removing them from the Manager and Delivery crew
  groups;
- cart scoping, the cart-line price rule and the cart serializer's field
  rules;
- the order lifecycle: role-scoped listing, placing an order from the cart,
  and the Manager PUT, Delivery-crew PATCH and Manager DELETE on one order;
- the writable-field whitelists of the order and menu-item serializers.

The store is a class, `Views.Store`, with one field per table: users by
username, group membership by group name, menu items, cart lines, orders,
order items, and the next order key. Each handler is a method. It takes the
requesting actor explicitly, returns a status, and changes only the tables
its `modifies` clause names. Its `ensures` give the handler's whole decision
tree, in the source's order. The invariant `Valid()` is kept by every
handler. It says that group members are known users, that every cart line's
price is its quantity times its unit price, that there is one cart line per
(user, menu item), and that order keys are fresh. Queries that change
nothing are functions.

Files:

- `types.dfy`: identifiers, the stored records, `Field` (absent, given or
  malformed body field), `Actor`, `Status`.
- `roles.dfy`: Python's `str.split('/')` with its inverse, a
  whole-segment reference definition, `extract_role_name`, and the
  permission predicates.
- `serializers.dfy`: the serializers' field rules.
- `tables.dfy`: table filters, sums and membership updates, with their
  lemmas.
- `views.dfy`: the store and its handlers, plus two client methods that run
  an order through its life.

Money is in integer minor units (cents). The order date is an opaque string
argument.

Some of what the code does is surprising. The model follows the code:

- placing an order writes no order-item rows (`PlaceOrder` may not modify
  `orderItems`);
- removing a user who is not in the group answers 200, not 404;
- the cart serializer's `user` field is writable, so a client may name
  another user and add a line to that user's cart (`ValidateCartLine`
  states whose cart receives the line);
- PUT accepts any stored user as `delivery_crew`, not only Delivery crew
  members;
- PATCH lets any Delivery crew member set the status of any order, not only
  orders assigned to them.

Behaviour taken from the framework that the handlers rely on:

- A refused permission answers 401 to an anonymous request and 403 to a
  signed-in one (`Roles.Denial`). This is an assumption about the
  authentication settings, which are not part of this model: the framework
  answers 401 only when the first configured authentication class asks for
  credentials, as token or basic authentication do. With session
  authentication first, an anonymous request would get 403 as well.
- `Group.objects.get` on a group that does not exist, or with no role in the
  path, raises an exception nobody catches, so the answer is a server error.
- `User.objects.filter(groups__name=None)` lists the users in no group.
- A handler that falls off its end returns nothing (`Status.NoResponse`).
- The one-line-per-(user, menu item) rule on cart lines comes from the data
  model. It is checked by the cart serializer before `validate` runs.

## Model

| member | source | states |
|---|---|---|
| `Roles.Split` | LittleLemonAPI/views.py:45 | `path.split('/')` yields at least one piece, and no piece contains a separator |
| `Roles.JoinSplit` | LittleLemonAPI/views.py:45 | joining the pieces of a path with '/' gives back the path |
| `Roles.SplitJoin` | LittleLemonAPI/views.py:45 | splitting a '/'-join of separator-free pieces gives back exactly those pieces |
| `Roles.SplitMembership` | LittleLemonAPI/views.py:45-48 | a name is one of the split pieces iff it occurs in the path bounded by separators or path ends (whole-segment match) |
| `Roles.ExtractRoleName` | LittleLemonAPI/views.py:44-49 | `extract_role_name`: the result is the Manager group, the Delivery crew group or no group (Python's implicit `None`) |
| `Roles.ExtractRoleNameBySegment` | LittleLemonAPI/views.py:44-49 | the role is Manager iff some segment is "manager"; otherwise Delivery crew iff some segment is "delivery-crew"; otherwise no role |
| `Roles.ManagerRoute` | LittleLemonAPI/urls.py:7-8 | every path that contains the manager group route names the Manager group, whatever surrounds it |
| `Roles.CrewRoute` | LittleLemonAPI/urls.py:9-10 | every path that contains the delivery-crew route names the Delivery crew group, unless the surrounding text has a "manager" segment |
| `Roles.PluralSegmentNamesNoRole` | LittleLemonAPI/views.py:44-49 | a "managers" segment does not match "manager": such a path names no role |
| `Roles.IsManager` | LittleLemonAPI/views.py:15-17 | `Manager.has_permission`: the actor is a signed-in member of the Manager group; an anonymous user or a missing group never passes |
| `Roles.IsDeliveryCrew` | LittleLemonAPI/views.py:155 | the Delivery crew group test of the order views (here and in PATCH, line 220): the actor is a signed-in member of that group; an anonymous user or a missing group never passes |
| `Roles.Denial` | LittleLemonAPI/views.py:15-17 | a refused permission answers 401 exactly when the request is anonymous and 403 exactly when it is signed in (under the authentication assumption stated above) |
| `Roles.MenuItemPermits` | LittleLemonAPI/views.py:26-41 | on both menu-item views a request is allowed iff the actor is signed in and the verb is GET or the actor is in the Manager group; a Manager may use every verb and a non-manager no verb other than GET |
| `Serializers.ValidateAttrs` | LittleLemonAPI/serializers.py:32-34 | `validate` sets price to quantity × unit_price and leaves every other attribute unchanged |
| `Serializers.ValidateAttrsIdempotent` | LittleLemonAPI/serializers.py:32-34 | validating twice equals validating once, and the price set does not depend on any price already present |
| `Serializers.CartFields` | LittleLemonAPI/serializers.py:26-42 | field rules succeed iff quantity, menuitem and unit_price are given, the user (if given) and the menu item exist; the user defaults to the requester; price is never read |
| `Serializers.ValidateCartLine` | LittleLemonAPI/serializers.py:26-42 | a body without quantity is rejected; a saved line has price = quantity × unit_price, the given or default user, the given item, quantity and unit price, and a (user, item) pair not yet taken |
| `Serializers.ClientPriceIgnored` | LittleLemonAPI/serializers.py:39-40 | the result of cart validation does not depend on any price the client sends |
| `Serializers.PatchOrderFields` | LittleLemonAPI/serializers.py:67-70 | PATCH fails iff status is malformed; otherwise only `status` may change (owner, crew, date, total kept) |
| `Serializers.UpdateOrderFields` | LittleLemonAPI/serializers.py:73-76 | PUT succeeds iff status and crew are well-formed and a given crew names a stored user; only `delivery_crew` and `status` may change (owner, date, total kept) |
| `Serializers.OrderWritesReadOnlyWhitelist` | LittleLemonAPI/serializers.py:67-76 | two bodies that agree on `delivery_crew` and `status` produce the same update under both serializers |
| `Serializers.UpdateWithoutCrewIsPatch` | LittleLemonAPI/serializers.py:67-76 | a PUT body without `delivery_crew` updates exactly as a PATCH |
| `Serializers.OrderWritesIdempotent` | LittleLemonAPI/serializers.py:67-76 | applying the same PATCH or PUT twice gives the same order as applying it once |
| `Serializers.WriteMenuItemFields` | LittleLemonAPI/serializers.py:12-17 | a menu-item write keeps `id` and `category` and sets title, price and featured to the given values or keeps them |
| `Serializers.MenuItemCategoryReadOnly` | LittleLemonAPI/serializers.py:13 | whatever category or id a body carries, the menu-item write is the same |
| `Tables.LinesOf` | LittleLemonAPI/views.py:143 | the caller's lines are exactly the table's lines whose user is the caller |
| `Tables.Without` | LittleLemonAPI/views.py:146 | after deleting a user's lines, exactly the lines of other users remain |
| `Tables.CartPartition` | LittleLemonAPI/views.py:142-147 | as multisets, a user's lines plus the remaining lines are the whole table: clearing loses and duplicates nothing |
| `Tables.WithoutScopes` | LittleLemonAPI/views.py:145-147 | after deleting a user's lines, that user's cart is empty and every other user's cart, in order, is unchanged |
| `Tables.SumPrices` | LittleLemonAPI/views.py:173 | `sum(item.price for item in cart_items)`; over lines with no negative price the sum is not negative |
| `Tables.SumPricesPartition` | LittleLemonAPI/views.py:166-179 | the sum of the caller's line prices plus the sum over the remaining lines is the sum over the whole table |
| `Tables.PricedTotal` | LittleLemonAPI/views.py:173 | over lines priced by the cart rule, the sum of prices equals the sum of quantity × unit_price |
| `Tables.OwnedBy` | LittleLemonAPI/views.py:158 | `Order.objects.filter(user=u)`: a sub-map of the order table holding, unchanged, every order of `u` and no other |
| `Tables.AssignedTo` | LittleLemonAPI/views.py:156 | `Order.objects.filter(delivery_crew=u)`: a sub-map of the order table holding, unchanged, every order assigned to `u` and no other |
| `Tables.OwnerViewsPartition` | LittleLemonAPI/views.py:157-158 | each order is in its owner's view, two different users' views are disjoint, and a view shows stored orders unchanged |
| `Tables.AddMember` | LittleLemonAPI/views.py:72 | after `user_set.add(u)` the memberships are the old ones plus (role, u); no other group or user changes |
| `Tables.RemoveMember` | LittleLemonAPI/views.py:98 | after `user_set.remove(u)` the memberships are the old ones minus (role, u); no other group or user changes |
| `Tables.MembershipRoundTrip` | LittleLemonAPI/views.py:72-98 | removing undoes adding a non-member, and adding an existing member changes nothing |
| `Views.Store.GroupMembers` | LittleLemonAPI/views.py:52-58 | Manager only (else 401/403); lists exactly the known users in the group the path names, or the users in no group when the path names none |
| `Views.Store.AddGroupMember` | LittleLemonAPI/views.py:60-80 | Manager only; missing username 400, unknown user 404, missing group 500, existing member 400, each with membership unchanged; otherwise 201 and the user becomes a member with no other membership changed; 201 is the only answer that changes membership |
| `Views.Store.RemoveGroupMember` | LittleLemonAPI/views.py:91-106 | Manager only; missing username 400, unknown user 404, missing group 500, each unchanged; otherwise 200 and the user is not a member afterwards even if they never were, with no other membership changed |
| `Views.Store.CartLines` | LittleLemonAPI/views.py:142-143 | a signed-in caller gets exactly their own cart lines; an anonymous one gets 401 |
| `Views.Store.AddToCart` | LittleLemonAPI/views.py:137-140 | a signed-in caller's body is validated by the cart serializer: 400 with the table unchanged, or 201 with exactly the validated line appended; the price and one-line-per-item invariants are kept |
| `Views.Store.ClearCart` | LittleLemonAPI/views.py:145-147 | always "ok" for a signed-in caller; exactly the caller's lines are deleted and every other user's cart is unchanged |
| `Views.Store.ListOrders` | LittleLemonAPI/views.py:152-163 | Manager sees all orders; otherwise a Delivery-crew member sees exactly the orders assigned to them; otherwise a signed-in user sees exactly their own; anonymous gets 401 |
| `Views.Store.PlaceOrder` | LittleLemonAPI/views.py:165-182 | empty cart or invalid order data gives 400 with orders and carts unchanged; otherwise 201, one new order with a fresh id, owner = caller, status false, total = sum of the cart prices = sum of quantity × unit_price; the caller's cart is emptied, other carts are kept, and no order items are written |
| `Views.Store.UpdateOrder` | LittleLemonAPI/views.py:199-213 | a missing id gives 404 even for a non-manager; a non-manager gets 403 with no change; a Manager's body is applied through the PUT whitelist (400 if invalid); owner, date and total of every order and all other orders are unchanged |
| `Views.Store.PatchOrder` | LittleLemonAPI/views.py:217-226 | a missing id gives 404; a Delivery-crew member's valid body changes only that order's status (200); anyone else, or an invalid body, gets no response and no change |
| `Views.Store.DeleteOrder` | LittleLemonAPI/views.py:230-240 | a non-manager gets 403 whether or not the order exists; a Manager gets 404 if it is absent, otherwise 200 with exactly that order removed |
| `Views.Store.UpdateMenuItem` | LittleLemonAPI/views.py:33-41 | a write is refused (401/403) unless the menu-item gate allows it, then 404 for a missing item, 400 for a malformed body, otherwise 200 through the serializer whitelist; no item's category ever changes |
| `Views.Store.DeleteMenuItem` | LittleLemonAPI/views.py:33-41 | refused (401/403) unless the gate allows DELETE; then 404 for a missing item, otherwise 204 and that item is no longer stored, every other menu item as it was; the rows that refer to it are not modelled (see below) |

## Left out

- `OrderIdView.get` (views.py:187-197) filters order items by the requesting user instead of the order key, and returns nothing when none match. Its intent is unclear, so it is not modelled. The order-item table is kept only to show that no handler writes it.
- The generic exception handlers that turn any other failure into a 500 answer, and the `Order.DoesNotExist` handler in DELETE, which cannot be reached.
- Response bodies, message texts and JSON shapes. Every answer is reduced to its status.
- Menu-item listing, creation, retrieval, search and ordering. These are done by generic framework views and filter backends; only their permission gate and the serializer whitelist are modelled.
- Authentication, sessions and the framework's request dispatch. The requesting user is an explicit `Actor` argument.
- `Views.Store.PlaceOrder`: the caller is always a signed-in user. The view declares no permission classes, and the project-wide default is not part of this model.
- `Views.Store.ListOrders`: an anonymous actor reaches the handler and gets its own 401. This assumes the project-wide default permission is the framework's `AllowAny`; the settings file is not part of this model.
- `Views.Store.UpdateOrder`: an anonymous actor reaches the handler, so it gets 404 for a missing order and 403 otherwise. This assumes the project-wide default permission is `AllowAny`; the settings file is not part of this model.
- `Views.Store.PatchOrder`: an anonymous actor reaches the handler, so it gets 404 for a missing order and no response otherwise. This assumes the project-wide default permission is `AllowAny`; the settings file is not part of this model.
- `Views.Store.DeleteOrder`: an anonymous actor reaches the handler and gets 403. This assumes the project-wide default permission is `AllowAny`; the settings file is not part of this model.
- `Views.Store.DeleteMenuItem`: the effect on cart lines and order items that refer to the deleted menu item is not modelled. Whether they are deleted with it, block the delete, or have their reference cleared is set by the `on_delete` policy of their foreign keys, in the models file, which is not part of this model. The model leaves those rows as they were.
- `Views.Store.PlaceOrder`: whether the order serializer accepts the assembled row depends on field limits in the models file, which is not part of this model. That verdict is the `orderDataValid` argument.
- The date is an opaque argument. Formatting the current date is left out, because the clock is outside the model.
- `Views.Store.UpdateMenuItem`: PUT and PATCH are treated alike. A PUT that omits a field the models require is not rejected here, because the model field definitions are not part of this model.
- `Serializers.UpdateOrderFields`: neither `delivery_crew` nor `status` is treated as required on PUT. This assumes the models give the first a null option and the second a default.
- `Serializers.CartFields`: a request with several faulty fields is reported with one error kind, not the full list the framework collects. Range limits of quantity and price columns are left out, because they live in the models file.
- Transactions and concurrency. Each handler runs to completion on its own, and no partial state of a handler is observable in the model.
