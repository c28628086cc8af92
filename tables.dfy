/** Queries over the stored tables that the views filter, sum and update:
    cart lines scoped to one user, order rows scoped by owner or by delivery
    crew, and group membership changes. */
module Tables {
  import opened Types
  import opened Roles

  // ---------------------------------------------------------------------
  // Cart lines
  // ---------------------------------------------------------------------

  /** `Cart.objects.filter(user=u)`: the lines of `u`, in table order. */
  function LinesOf(lines: seq<CartLine>, u: UserId): (r: seq<CartLine>)
    ensures forall l :: l in r <==> l in lines && l.user == u
    ensures |r| <= |lines|
  {
    if lines == [] then []
    else (if lines[0].user == u then [lines[0]] else []) + LinesOf(lines[1..], u)
  }

  /** The table once `LinesOf(lines, u).delete()` has run. */
  function Without(lines: seq<CartLine>, u: UserId): (r: seq<CartLine>)
    ensures forall l :: l in r <==> l in lines && l.user != u
    ensures |r| <= |lines|
  {
    if lines == [] then []
    else (if lines[0].user == u then [] else [lines[0]]) + Without(lines[1..], u)
  }

  /** Every row is either one of `u`'s lines or survives deleting them, and
      none is both or lost. */
  lemma {:induction false} CartPartition(lines: seq<CartLine>, u: UserId)
    ensures multiset(LinesOf(lines, u)) + multiset(Without(lines, u)) == multiset(lines)
  {
    if lines != [] {
      var rest := lines[1..];
      CartPartition(rest, u);
      assert lines == [lines[0]] + rest;
      assert multiset(lines) == multiset{lines[0]} + multiset(rest);
      if lines[0].user == u {
        assert LinesOf(lines, u) == [lines[0]] + LinesOf(rest, u);
        assert multiset(LinesOf(lines, u)) == multiset{lines[0]} + multiset(LinesOf(rest, u));
        assert Without(lines, u) == Without(rest, u);
      } else {
        assert Without(lines, u) == [lines[0]] + Without(rest, u);
        assert multiset(Without(lines, u)) == multiset{lines[0]} + multiset(Without(rest, u));
        assert LinesOf(lines, u) == LinesOf(rest, u);
      }
    }
  }

  /** Deleting `u`'s lines empties `u`'s cart and leaves every other user's
      cart, order included, as it was. */
  lemma {:induction false} WithoutScopes(lines: seq<CartLine>, u: UserId, v: UserId)
    ensures LinesOf(Without(lines, u), v) == if u == v then [] else LinesOf(lines, v)
  {
    if lines != [] {
      WithoutScopes(lines[1..], u, v);
      var head := if lines[0].user == u then [] else [lines[0]];
      assert Without(lines, u) == head + Without(lines[1..], u);
      LinesOfConcat(head, Without(lines[1..], u), v);
    }
  }

  lemma {:induction false} LinesOfConcat(a: seq<CartLine>, b: seq<CartLine>, v: UserId)
    ensures LinesOf(a + b, v) == LinesOf(a, v) + LinesOf(b, v)
  {
    if a != [] {
      assert (a + b)[1..] == a[1..] + b;
      LinesOfConcat(a[1..], b, v);
    } else {
      assert a + b == b;
    }
  }

  /** Python's `sum(item.price for item in lines)`: no negative price, no
      negative total. */
  function SumPrices(lines: seq<CartLine>): (s: int)
    ensures (forall l :: l in lines ==> l.price >= 0) ==> s >= 0
  {
    if lines == [] then 0
    else
      assert forall l :: l in lines[1..] ==> l in lines;
      lines[0].price + SumPrices(lines[1..])
  }

  /** The sum of quantity times unit price over the lines. */
  function SumSubtotals(lines: seq<CartLine>): int
  {
    if lines == [] then 0 else lines[0].quantity * lines[0].unitPrice + SumSubtotals(lines[1..])
  }

  /** Every line's price is its quantity times its unit price. */
  predicate Priced(lines: seq<CartLine>)
  {
    forall l :: l in lines ==> l.price == l.quantity * l.unitPrice
  }

  /** Over priced lines, the sum of prices is the sum of quantity times unit
      price. */
  lemma {:induction false} PricedTotal(lines: seq<CartLine>)
    requires Priced(lines)
    ensures SumPrices(lines) == SumSubtotals(lines)
  {
    if lines != [] {
      assert lines[0] in lines;
      assert forall l :: l in lines[1..] ==> l in lines;
      PricedTotal(lines[1..]);
    }
  }

  /** The money in one user's cart plus the money in the other carts is the
      money in the whole table. */
  lemma {:induction false} SumPricesPartition(lines: seq<CartLine>, u: UserId)
    ensures SumPrices(LinesOf(lines, u)) + SumPrices(Without(lines, u)) == SumPrices(lines)
  {
    if lines != [] {
      SumPricesPartition(lines[1..], u);
      if lines[0].user == u {
        assert LinesOf(lines, u) == [lines[0]] + LinesOf(lines[1..], u);
        assert Without(lines, u) == Without(lines[1..], u);
      } else {
        assert LinesOf(lines, u) == LinesOf(lines[1..], u);
        assert Without(lines, u) == [lines[0]] + Without(lines[1..], u);
      }
    }
  }

  /** The (user, menuitem) pairs that already have a line. */
  function CartKeys(lines: seq<CartLine>): (keys: set<(UserId, MenuItemId)>)
    ensures forall i :: 0 <= i < |lines| ==> (lines[i].user, lines[i].menuitem) in keys
  {
    set l | l in lines :: (l.user, l.menuitem)
  }

  /** No two lines share a (user, menuitem) pair. */
  predicate OneLinePerItem(lines: seq<CartLine>)
  {
    forall i, j :: 0 <= i < j < |lines| ==>
      lines[i].user != lines[j].user || lines[i].menuitem != lines[j].menuitem
  }

  /** In a table with one line per pair, the first line's pair appears
      nowhere in the rest, and the rest keeps one line per pair. */
  lemma OneLinePerItemTail(lines: seq<CartLine>)
    requires lines != [] && OneLinePerItem(lines)
    ensures OneLinePerItem(lines[1..])
    ensures forall l :: l in lines[1..] ==> l.user != lines[0].user || l.menuitem != lines[0].menuitem
  {
    var rest := lines[1..];
    forall i, j | 0 <= i < j < |rest|
      ensures rest[i].user != rest[j].user || rest[i].menuitem != rest[j].menuitem
    {
      assert rest[i] == lines[i + 1] && rest[j] == lines[j + 1];
    }
    forall l | l in rest
      ensures l.user != lines[0].user || l.menuitem != lines[0].menuitem
    {
      var k :| 0 <= k < |rest| && rest[k] == l;
      assert rest[k] == lines[k + 1];
    }
  }

  /** Deleting one user's lines keeps the other lines one per pair. */
  lemma {:induction false} WithoutOneLinePerItem(lines: seq<CartLine>, u: UserId)
    requires OneLinePerItem(lines)
    ensures OneLinePerItem(Without(lines, u))
  {
    if lines != [] {
      var rest := lines[1..];
      OneLinePerItemTail(lines);
      WithoutOneLinePerItem(rest, u);
      var tail := Without(rest, u);
      if lines[0].user != u {
        var w := Without(lines, u);
        assert w == [lines[0]] + tail;
        forall i, j | 0 <= i < j < |w|
          ensures w[i].user != w[j].user || w[i].menuitem != w[j].menuitem
        {
          assert w[j] == tail[j - 1] && w[j] in rest;
          if i > 0 {
            assert w[i] == tail[i - 1];
          }
        }
      }
    }
  }

  /** A line whose (user, menuitem) pair is not yet taken can be appended. */
  lemma AppendOneLinePerItem(lines: seq<CartLine>, line: CartLine)
    requires OneLinePerItem(lines) && Priced(lines)
    requires (line.user, line.menuitem) !in CartKeys(lines)
    requires line.price == line.quantity * line.unitPrice
    ensures OneLinePerItem(lines + [line]) && Priced(lines + [line])
  {
    var all := lines + [line];
    forall i, j | 0 <= i < j < |all|
      ensures all[i].user != all[j].user || all[i].menuitem != all[j].menuitem
    {
      if j == |lines| {
        assert (lines[i].user, lines[i].menuitem) in CartKeys(lines);
      }
    }
  }

  // ---------------------------------------------------------------------
  // Orders
  // ---------------------------------------------------------------------

  /** `Order.objects.filter(user=u)`: the stored orders, unchanged, that
      belong to `u`, and all of them. */
  function OwnedBy(orders: map<OrderId, Order>, u: UserId): (r: map<OrderId, Order>)
    ensures r.Keys <= orders.Keys
    ensures forall id :: id in r ==> r[id] == orders[id] && r[id].owner == u
    ensures forall id :: id in orders && orders[id].owner == u ==> id in r
  {
    map id | id in orders && orders[id].owner == u :: orders[id]
  }

  /** `Order.objects.filter(delivery_crew=u)`: the stored orders, unchanged,
      assigned to `u`, and all of them; an order with no crew is in no
      one's view. */
  function AssignedTo(orders: map<OrderId, Order>, u: UserId): (r: map<OrderId, Order>)
    ensures r.Keys <= orders.Keys
    ensures forall id :: id in r ==> r[id] == orders[id] && r[id].crew == Some(u)
    ensures forall id :: id in orders && orders[id].crew == Some(u) ==> id in r
  {
    map id | id in orders && orders[id].crew == Some(u) :: orders[id]
  }

  /** The owners' views partition the order table: each order is seen by its
      owner and by no other user, and unchanged. */
  lemma OwnerViewsPartition(orders: map<OrderId, Order>, u: UserId, v: UserId)
    ensures forall id :: id in orders ==> id in OwnedBy(orders, orders[id].owner)
    ensures u != v ==> OwnedBy(orders, u).Keys !! OwnedBy(orders, v).Keys
    ensures forall id :: id in OwnedBy(orders, u) ==> id in orders && OwnedBy(orders, u)[id] == orders[id]
  {
  }

  // ---------------------------------------------------------------------
  // Group membership
  // ---------------------------------------------------------------------

  /** `group.user_set.add(u)` on the existing group `role`. */
  function AddMember(groups: map<string, set<UserId>>, role: string, u: UserId): (r: map<string, set<UserId>>)
    requires role in groups
    ensures r.Keys == groups.Keys
    ensures forall g, v :: Member(r, g, v) <==> Member(groups, g, v) || (g == role && v == u)
  {
    groups[role := groups[role] + {u}]
  }

  /** `group.user_set.remove(u)` on the existing group `role`; a user who is
      not a member is left alone. */
  function RemoveMember(groups: map<string, set<UserId>>, role: string, u: UserId): (r: map<string, set<UserId>>)
    requires role in groups
    ensures r.Keys == groups.Keys
    ensures forall g, v :: Member(r, g, v) <==> Member(groups, g, v) && (g != role || v != u)
  {
    groups[role := groups[role] - {u}]
  }

  /** Removing undoes adding, and adding a member already present changes
      nothing. */
  lemma MembershipRoundTrip(groups: map<string, set<UserId>>, role: string, u: UserId)
    requires role in groups
    ensures !Member(groups, role, u) ==> RemoveMember(AddMember(groups, role, u), role, u) == groups
    ensures Member(groups, role, u) ==> AddMember(groups, role, u) == groups
  {
    if !Member(groups, role, u) {
      assert groups[role] + {u} - {u} == groups[role];
    } else {
      assert groups[role] + {u} == groups[role];
    }
  }
}
