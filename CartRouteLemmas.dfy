/** What the cart routes guarantee about the `cart_items` table: the table
    invariant every handler keeps, coalescing on add, ownership isolation on
    update and delete, and quantity conservation on merge. */
module CartRouteLemmas {
  import opened Tables
  import opened CartRoutes

  // ---------------------------------------------------------------------
  // Quantities per slot

  /** The quantity a row contributes to the slot (owner, product, variant). */
  function Contribution(r: CartRow, o: Owner, p: Id, v: Option<Id>): int {
    if InSlot(r, o, p, v) then r.quantity else 0
  }

  /** Total quantity the table holds for one slot. */
  function SlotQty(rows: seq<CartRow>, o: Owner, p: Id, v: Option<Id>): int {
    if rows == [] then 0 else Contribution(rows[0], o, p, v) + SlotQty(rows[1..], o, p, v)
  }

  /** Total quantity a list of rows holds for (product, variant), whoever owns them. */
  function VariantQty(rows: seq<CartRow>, p: Id, v: Option<Id>): int {
    if rows == [] then 0
    else (if rows[0].productId == p && rows[0].variantId == v then rows[0].quantity else 0)
         + VariantQty(rows[1..], p, v)
  }

  ghost predicate AllSingleOwner(rows: seq<CartRow>) {
    forall x :: x in rows ==> SingleOwner(x)
  }

  lemma {:induction false} SlotQtyAppend(rows: seq<CartRow>, x: CartRow, o: Owner, p: Id, v: Option<Id>)
    ensures SlotQty(rows + [x], o, p, v) == SlotQty(rows, o, p, v) + Contribution(x, o, p, v)
  {
    if rows == [] {
      assert [x][1..] == [];
    } else {
      assert (rows + [x])[1..] == rows[1..] + [x];
      SlotQtyAppend(rows[1..], x, o, p, v);
    }
  }

  lemma {:induction false} SlotQtyUpdate(rows: seq<CartRow>, k: nat, x: CartRow, o: Owner, p: Id, v: Option<Id>)
    requires k < |rows|
    ensures SlotQty(rows[k := x], o, p, v)
         == SlotQty(rows, o, p, v) - Contribution(rows[k], o, p, v) + Contribution(x, o, p, v)
  {
    if k == 0 {
      assert rows[k := x][1..] == rows[1..];
    } else {
      assert rows[k := x][1..] == rows[1..][k - 1 := x];
      SlotQtyUpdate(rows[1..], k - 1, x, o, p, v);
    }
  }

  /** A row with a single owner sits in exactly one slot. */
  lemma OneSlot(r: CartRow, o: Owner, p: Id, v: Option<Id>, o': Owner, p': Id, v': Option<Id>)
    requires SingleOwner(r) && InSlot(r, o, p, v)
    ensures InSlot(r, o', p', v') <==> o' == o && p' == p && v' == v
  {
  }

  /** Filtering with a predicate that keeps every row of a slot keeps the
      slot's quantity. */
  lemma {:induction false} KeepQty(rows: seq<CartRow>, keep: CartRow -> bool, o: Owner, p: Id, v: Option<Id>)
    requires forall x :: x in rows && InSlot(x, o, p, v) ==> keep(x)
    ensures SlotQty(Filter(rows, keep), o, p, v) == SlotQty(rows, o, p, v)
  {
    if rows != [] {
      KeepQty(rows[1..], keep, o, p, v);
      if keep(rows[0]) {
        var rest := Filter(rows[1..], keep);
        assert Filter(rows, keep) == [rows[0]] + rest;
        assert ([rows[0]] + rest)[1..] == rest;
      }
    }
  }

  /** The guest rows of a session, counted by (product, variant), hold what
      the session's slots hold. */
  lemma {:induction false} GuestQty(rows: seq<CartRow>, sid: Id, p: Id, v: Option<Id>)
    ensures VariantQty(Filter(rows, GuestFilter(sid)), p, v) == SlotQty(rows, GuestOwner(sid), p, v)
  {
    if rows != [] {
      GuestQty(rows[1..], sid, p, v);
      var rest := Filter(rows[1..], GuestFilter(sid));
      if GuestFilter(sid)(rows[0]) {
        assert Filter(rows, GuestFilter(sid)) == [rows[0]] + rest;
        assert ([rows[0]] + rest)[1..] == rest;
      }
    }
  }

  // ---------------------------------------------------------------------
  // Check-then-update-or-insert

  /** In a well-formed table a slot holds at most one row, so the store's
      `maybeSingle` lookup never sees two. */
  lemma SlotHoldsOneRow(t: Table, i: nat, j: nat, o: Owner, p: Id, v: Option<Id>)
    requires WellFormed(t)
    requires i < |t.rows| && j < |t.rows|
    requires InSlot(t.rows[i], o, p, v) && InSlot(t.rows[j], o, p, v)
    ensures i == j
  {
    assert t.rows[i] in t.rows && t.rows[j] in t.rows;
    assert i < j ==> Apart(t.rows[i], t.rows[j]);
    assert j < i ==> Apart(t.rows[j], t.rows[i]);
  }

  /** When the slot already has row `k`, that row's quantity grows by `q`;
      its id, owner, product, variant and price stay, no row is added and
      every other row is left as it was. */
  lemma UpsertIncrements(t: Table, o: Owner, p: Id, v: Option<Id>, q: int, price: int, k: nat)
    requires WellFormed(t)
    requires k < |t.rows| && InSlot(t.rows[k], o, p, v)
    ensures var w := Upsert(t, o, p, v, q, price);
      w.table.nextId == t.nextId && |w.table.rows| == |t.rows| &&
      w.row == t.rows[k].(quantity := t.rows[k].quantity + q) &&
      w.table.rows[k] == w.row &&
      forall i :: 0 <= i < |t.rows| && i != k ==> w.table.rows[i] == t.rows[i]
  {
    match FindSlot(t.rows, o, p, v)
    case Some(j) => SlotHoldsOneRow(t, j, k, o, p, v);
    case None =>
  }

  /** When the slot is empty, exactly one row is appended: the next id, the
      owner's column set and the other null, and the given product, variant,
      quantity and price. */
  lemma UpsertInserts(t: Table, o: Owner, p: Id, v: Option<Id>, q: int, price: int)
    requires forall x :: x in t.rows ==> !InSlot(x, o, p, v)
    ensures var w := Upsert(t, o, p, v, q, price);
      w.table.nextId == t.nextId + 1 &&
      w.table.rows == t.rows + [w.row] &&
      w.row.id == t.nextId &&
      (o.UserOwner? ==> w.row.userId == Some(o.uid) && w.row.sessionId.None?) &&
      (o.GuestOwner? ==> w.row.userId.None? && w.row.sessionId == Some(o.sid)) &&
      w.row.productId == p && w.row.variantId == v &&
      w.row.quantity == q && w.row.price == price
  {
    assert forall j :: 0 <= j < |t.rows| ==> t.rows[j] in t.rows;
  }

  /** An upsert adds `q` to its own slot and changes no other slot. */
  lemma UpsertQty(t: Table, o: Owner, p: Id, v: Option<Id>, q: int, price: int, o': Owner, p': Id, v': Option<Id>)
    requires AllSingleOwner(t.rows)
    ensures SlotQty(Upsert(t, o, p, v, q, price).table.rows, o', p', v')
         == SlotQty(t.rows, o', p', v') + (if o' == o && p' == p && v' == v then q else 0)
  {
    match FindSlot(t.rows, o, p, v)
    case Some(k) =>
      assert t.rows[k] in t.rows;
      OneSlot(t.rows[k], o, p, v, o', p', v');
      SlotQtyUpdate(t.rows, k, t.rows[k].(quantity := t.rows[k].quantity + q), o', p', v');
    case None =>
      var row := NewRow(t.nextId, o, p, v, q, price);
      OneSlot(row, o, p, v, o', p', v');
      SlotQtyAppend(t.rows, row, o', p', v');
  }

  /** An upsert touches only rows the owner `o` owns. */
  lemma UpsertKeepsOthers(t: Table, o: Owner, p: Id, v: Option<Id>, q: int, price: int, x: CartRow)
    requires !OwnedBy(x, o)
    ensures x in Upsert(t, o, p, v, q, price).table.rows <==> x in t.rows
  {
    match FindSlot(t.rows, o, p, v)
    case Some(k) =>
      MemberUpdate(t.rows, k, t.rows[k].(quantity := t.rows[k].quantity + q), x);
    case None =>
  }

  lemma UpsertWellFormed(t: Table, o: Owner, p: Id, v: Option<Id>, q: int, price: int)
    requires WellFormed(t)
    ensures WellFormed(Upsert(t, o, p, v, q, price).table)
  {
    var w := Upsert(t, o, p, v, q, price);
    match FindSlot(t.rows, o, p, v)
    case Some(k) =>
      var rows := w.table.rows;
      assert rows == t.rows[k := w.row];
      forall x | x in rows ensures SingleOwner(x) && x.id < w.table.nextId {
        var i :| 0 <= i < |rows| && rows[i] == x;
        assert t.rows[i] in t.rows;
      }
      forall i, j | 0 <= i < j < |rows| ensures Apart(rows[i], rows[j]) {
        assert Apart(t.rows[i], t.rows[j]);
      }
    case None =>
      var rows := w.table.rows;
      assert rows == t.rows + [w.row];
      forall i, j | 0 <= i < j < |rows| ensures Apart(rows[i], rows[j]) {
        if j < |t.rows| {
          assert Apart(t.rows[i], t.rows[j]);
        } else {
          assert rows[i] == t.rows[i] && t.rows[i] in t.rows;
          assert !InSlot(t.rows[i], o, p, v);
        }
      }
  }

  lemma FilterWellFormed(t: Table, keep: CartRow -> bool)
    requires WellFormed(t)
    ensures WellFormed(Table(Filter(t.rows, keep), t.nextId))
  {
    FilterPairwise(t.rows, keep, Apart);
  }

  // ---------------------------------------------------------------------
  // Identity

  /** The update and delete routes reach every row the add route files for
      the same request. */
  lemma CallerReachesOwnRows(req: Request, r: CartRow)
    requires OwnedBy(r, OwnerOf(req))
    ensures CallerMatches(r, req)
  {
  }

  /** The list route shows every row the add route files for the same
      request, unless the request is a guest without a `session-id` header:
      its rows go under a generated id the list route never matches. */
  lemma ListShowsOwnRows(req: Request, r: CartRow)
    requires OwnedBy(r, OwnerOf(req)) && SingleOwner(r)
    ensures Listed(r, req) <==> req.user.Some? || Truthy(req.sessionHeader).Some?
  {
  }

  // ---------------------------------------------------------------------
  // POST /

  /** Adding a new (owner, product, variant) appends one row holding the
      captured price and `parseInt(quantity) || 1`, owned by the user when
      authenticated and by the session otherwise. */
  lemma AddInsertsRow(t: Table, catalog: map<Id, Product>, req: Request, body: AddBody)
    requires Truthy(body.productId).Some? && Truthy(body.productId).value in catalog
    requires forall x :: x in t.rows ==>
               !InSlot(x, OwnerOf(req), Truthy(body.productId).value, Truthy(body.variantId))
    ensures var r := AddResult(t, catalog, req, body);
      var pid := Truthy(body.productId).value;
      r.status == 201 && r.item.Some? && r.table.rows == t.rows + [r.item.value] &&
      r.table.nextId == t.nextId + 1 && r.item.value.id == t.nextId &&
      (req.user.Some? ==> r.item.value.userId == req.user && r.item.value.sessionId.None?) &&
      (req.user.None? ==> r.item.value.userId.None? && r.item.value.sessionId == Some(SessionOf(req))) &&
      r.item.value.productId == pid && r.item.value.variantId == Truthy(body.variantId) &&
      r.item.value.quantity == AddedQuantity(body.quantity) &&
      r.item.value.price == CapturedPrice(catalog[pid])
  {
    var pid := Truthy(body.productId).value;
    UpsertInserts(t, OwnerOf(req), pid, Truthy(body.variantId),
                  AddedQuantity(body.quantity), CapturedPrice(catalog[pid]));
  }

  /** Adding to an existing (owner, product, variant) row `k` adds
      `parseInt(quantity) || 1` to it; no row appears, its price is kept and
      no other row changes. */
  lemma AddIncrementsRow(t: Table, catalog: map<Id, Product>, req: Request, body: AddBody, k: nat)
    requires WellFormed(t)
    requires Truthy(body.productId).Some? && Truthy(body.productId).value in catalog
    requires k < |t.rows| && InSlot(t.rows[k], OwnerOf(req), Truthy(body.productId).value, Truthy(body.variantId))
    ensures var r := AddResult(t, catalog, req, body);
      r.status == 201 && r.table.nextId == t.nextId && |r.table.rows| == |t.rows| &&
      r.table.rows[k] == t.rows[k].(quantity := t.rows[k].quantity + AddedQuantity(body.quantity)) &&
      r.item == Some(r.table.rows[k]) &&
      forall i :: 0 <= i < |t.rows| && i != k ==> r.table.rows[i] == t.rows[i]
  {
    var pid := Truthy(body.productId).value;
    UpsertIncrements(t, OwnerOf(req), pid, Truthy(body.variantId),
                     AddedQuantity(body.quantity), CapturedPrice(catalog[pid]), k);
  }

  /** Two adds of the same (owner, product, variant) into a table without
      it leave one row whose quantity is the sum of the two. */
  lemma AddTwiceCoalesces(t: Table, catalog: map<Id, Product>, req: Request, b1: AddBody, b2: AddBody)
    requires WellFormed(t)
    requires Truthy(b1.productId).Some? && Truthy(b1.productId).value in catalog
    requires Truthy(b2.productId) == Truthy(b1.productId) && Truthy(b2.variantId) == Truthy(b1.variantId)
    requires forall x :: x in t.rows ==>
               !InSlot(x, OwnerOf(req), Truthy(b1.productId).value, Truthy(b1.variantId))
    ensures var t2 := AddResult(AddResult(t, catalog, req, b1).table, catalog, req, b2).table;
      var n := |t.rows|;
      |t2.rows| == n + 1 && t2.rows[..n] == t.rows &&
      InSlot(t2.rows[n], OwnerOf(req), Truthy(b1.productId).value, Truthy(b1.variantId)) &&
      t2.rows[n].quantity == AddedQuantity(b1.quantity) + AddedQuantity(b2.quantity) &&
      t2.rows[n].price == CapturedPrice(catalog[Truthy(b1.productId).value]) &&
      forall i :: 0 <= i < n ==>
        !InSlot(t2.rows[i], OwnerOf(req), Truthy(b1.productId).value, Truthy(b1.variantId))
  {
    var n := |t.rows|;
    var pid := Truthy(b1.productId).value;
    var o, v := OwnerOf(req), Truthy(b1.variantId);
    AddInsertsRow(t, catalog, req, b1);
    var t1 := AddResult(t, catalog, req, b1).table;
    AddWellFormed(t, catalog, req, b1);
    assert t1.rows[n] == AddResult(t, catalog, req, b1).item.value;
    AddIncrementsRow(t1, catalog, req, b2, n);
    var t2 := AddResult(t1, catalog, req, b2).table;
    forall i | 0 <= i < n ensures t2.rows[i] == t.rows[i] {
      assert t1.rows[i] == t.rows[i];
    }
    assert t2.rows[..n] == t.rows;
    forall i | 0 <= i < n ensures !InSlot(t2.rows[i], o, pid, v) {
      assert t.rows[i] in t.rows;
    }
  }

  /** An add adds `parseInt(quantity) || 1` to its slot's total and leaves
      the total of every other slot alone. */
  lemma AddQty(t: Table, catalog: map<Id, Product>, req: Request, body: AddBody, o: Owner, p: Id, v: Option<Id>)
    requires WellFormed(t)
    requires Truthy(body.productId).Some? && Truthy(body.productId).value in catalog
    ensures SlotQty(AddResult(t, catalog, req, body).table.rows, o, p, v)
         == SlotQty(t.rows, o, p, v) +
            (if o == OwnerOf(req) && p == Truthy(body.productId).value && v == Truthy(body.variantId)
             then AddedQuantity(body.quantity) else 0)
  {
    var pid := Truthy(body.productId).value;
    UpsertQty(t, OwnerOf(req), pid, Truthy(body.variantId),
              AddedQuantity(body.quantity), CapturedPrice(catalog[pid]), o, p, v);
  }

  /** The add route does not floor the quantity: `parseInt` of a negative
      number is truthy and is stored as it is. */
  lemma AddStoresNegativeQuantity(t: Table, catalog: map<Id, Product>, req: Request, pid: Id, q: int)
    requires pid in catalog && q < 0
    requires forall x :: x in t.rows ==> !InSlot(x, OwnerOf(req), pid, None)
    ensures var r := AddResult(t, catalog, req, AddBody(Some(pid), None, Some(q)));
      r.status == 201 && r.item.Some? && r.item.value.quantity == q && r.item.value in r.table.rows
  {
    AddInsertsRow(t, catalog, req, AddBody(Some(pid), None, Some(q)));
  }

  lemma AddWellFormed(t: Table, catalog: map<Id, Product>, req: Request, body: AddBody)
    requires WellFormed(t)
    ensures WellFormed(AddResult(t, catalog, req, body).table)
  {
    if Truthy(body.productId).Some? && Truthy(body.productId).value in catalog {
      var pid := Truthy(body.productId).value;
      UpsertWellFormed(t, OwnerOf(req), pid, Truthy(body.variantId),
                       AddedQuantity(body.quantity), CapturedPrice(catalog[pid]));
    }
  }

  // ---------------------------------------------------------------------
  // PUT /:id

  /** A successful update sets the quantity of the rows with that id that
      the caller's filter matches and of no other row; their price, owner
      and product are kept. */
  lemma UpdateTouchesOnlyTarget(t: Table, req: Request, id: nat, quantity: Option<int>)
    requires UpdateResult(t, req, id, quantity).status == 200
    ensures var r := UpdateResult(t, req, id, quantity);
      |r.table.rows| == |t.rows| && r.table.nextId == t.nextId &&
      forall i :: 0 <= i < |t.rows| ==>
        if t.rows[i].id == id && CallerMatches(t.rows[i], req)
        then r.table.rows[i] == t.rows[i].(quantity := quantity.value)
        else r.table.rows[i] == t.rows[i]
    ensures var r := UpdateResult(t, req, id, quantity);
      r.item.Some? && r.item.value in r.table.rows &&
      r.item.value.id == id && CallerMatches(r.item.value, req) &&
      r.item.value.quantity == quantity.value &&
      exists i :: 0 <= i < |t.rows| && t.rows[i].id == id && CallerMatches(t.rows[i], req) &&
                  r.item.value == t.rows[i].(quantity := quantity.value)
  {
    var r := UpdateResult(t, req, id, quantity);
    var matched := Filter(t.rows, ItemFilter(req, id));
    assert matched[0] in matched;
    var i :| 0 <= i < |t.rows| && t.rows[i] == matched[0];
    assert r.table.rows[i] == t.rows[i].(quantity := quantity.value);
  }

  /** In a well-formed table an update changes at most one row, since ids
      are distinct. */
  lemma UpdateChangesAtMostOneRow(t: Table, req: Request, id: nat, quantity: Option<int>, i: nat, j: nat)
    requires WellFormed(t)
    requires i < |t.rows| && j < |t.rows|
    requires var r := UpdateResult(t, req, id, quantity);
      r.table.rows[i] != t.rows[i] && r.table.rows[j] != t.rows[j]
    ensures i == j
  {
    var r := UpdateResult(t, req, id, quantity);
    assert r.status == 200;
    UpdateTouchesOnlyTarget(t, req, id, quantity);
    assert t.rows[i].id == id && t.rows[j].id == id;
    assert i < j ==> Apart(t.rows[i], t.rows[j]);
    assert j < i ==> Apart(t.rows[j], t.rows[i]);
  }

  lemma UpdateWellFormed(t: Table, req: Request, id: nat, quantity: Option<int>)
    requires WellFormed(t)
    ensures WellFormed(UpdateResult(t, req, id, quantity).table)
  {
    var r := UpdateResult(t, req, id, quantity);
    if r.status == 200 {
      var rows := r.table.rows;
      forall x | x in rows ensures SingleOwner(x) && x.id < t.nextId {
        var i :| 0 <= i < |rows| && rows[i] == x;
        assert t.rows[i] in t.rows;
      }
      forall i, j | 0 <= i < j < |rows| ensures Apart(rows[i], rows[j]) {
        assert Apart(t.rows[i], t.rows[j]);
      }
    }
  }

  // ---------------------------------------------------------------------
  // DELETE /:id and DELETE /

  lemma RemoveWellFormed(t: Table, req: Request, id: nat)
    requires WellFormed(t)
    ensures WellFormed(RemoveResult(t, req, id).table)
  {
    FilterWellFormed(t, NotItemFilter(req, id));
  }

  lemma ClearWellFormed(t: Table, req: Request)
    requires WellFormed(t)
    ensures WellFormed(ClearResult(t, req).table)
  {
    FilterWellFormed(t, NotCallerFilter(req));
  }

  /** After clearing, a later list by the same authenticated caller, or by a
      guest with a `session-id` header, finds nothing. */
  lemma ClearEmptiesList(t: Table, req: Request)
    requires req.user.Some? || Truthy(req.sessionHeader).Some?
    ensures ListResult(ClearResult(t, req).table.rows, req) == []
  {
    FilterNone(ClearResult(t, req).table.rows, ListFilter(req));
  }

  // ---------------------------------------------------------------------
  // POST /merge

  lemma {:induction false} FoldSingleOwner(t: Table, u: Id, guests: seq<CartRow>)
    requires AllSingleOwner(t.rows)
    ensures AllSingleOwner(Fold(t, u, guests).rows)
    decreases |guests|
  {
    if guests != [] {
      var g := guests[0];
      var w := Upsert(t, UserOwner(u), g.productId, g.variantId, g.quantity, g.price);
      if FindSlot(t.rows, UserOwner(u), g.productId, g.variantId).Some? {
        forall x | x in w.table.rows ensures SingleOwner(x) {
          var i :| 0 <= i < |w.table.rows| && w.table.rows[i] == x;
          assert t.rows[i] in t.rows;
        }
      }
      FoldSingleOwner(MergeRow(t, u, g), u, guests[1..]);
    }
  }

  lemma {:induction false} FoldWellFormed(t: Table, u: Id, guests: seq<CartRow>)
    requires WellFormed(t)
    ensures WellFormed(Fold(t, u, guests))
    decreases |guests|
  {
    if guests != [] {
      var g := guests[0];
      UpsertWellFormed(t, UserOwner(u), g.productId, g.variantId, g.quantity, g.price);
      FoldWellFormed(MergeRow(t, u, g), u, guests[1..]);
    }
  }

  /** The merge loop adds every guest row's quantity to the user's slot of
      the same (product, variant) and changes no other slot. */
  lemma {:induction false} FoldQty(t: Table, u: Id, guests: seq<CartRow>, o: Owner, p: Id, v: Option<Id>)
    requires AllSingleOwner(t.rows)
    ensures SlotQty(Fold(t, u, guests).rows, o, p, v)
         == SlotQty(t.rows, o, p, v) + (if o == UserOwner(u) then VariantQty(guests, p, v) else 0)
    decreases |guests|
  {
    if guests != [] {
      var g := guests[0];
      UpsertQty(t, UserOwner(u), g.productId, g.variantId, g.quantity, g.price, o, p, v);
      FoldSingleOwner(t, u, [g]);
      assert Fold(t, u, [g]) == MergeRow(t, u, g);
      FoldQty(MergeRow(t, u, g), u, guests[1..], o, p, v);
    }
  }

  /** The merge loop touches only the user's rows. */
  lemma {:induction false} FoldKeepsOthers(t: Table, u: Id, guests: seq<CartRow>, x: CartRow)
    requires x.userId != Some(u)
    ensures x in Fold(t, u, guests).rows <==> x in t.rows
    decreases |guests|
  {
    if guests != [] {
      var g := guests[0];
      UpsertKeepsOthers(t, UserOwner(u), g.productId, g.variantId, g.quantity, g.price, x);
      FoldKeepsOthers(MergeRow(t, u, g), u, guests[1..], x);
    }
  }

  /** Every row of the slot is `y` but for its quantity. */
  ghost predicate SlotLike(rows: seq<CartRow>, o: Owner, p: Id, v: Option<Id>, y: CartRow) {
    forall x :: x in rows && InSlot(x, o, p, v) ==> x.(quantity := y.quantity) == y
  }

  /** An upsert keeps an occupied slot occupied at the same position, and
      changes its rows in quantity only. */
  lemma UpsertKeepsSlot(t: Table, o': Owner, p': Id, v': Option<Id>, q: int, price: int,
                        o: Owner, p: Id, v: Option<Id>, j: nat, y: CartRow)
    requires j < |t.rows| && InSlot(t.rows[j], o, p, v)
    requires SlotLike(t.rows, o, p, v, y)
    ensures var rows := Upsert(t, o', p', v', q, price).table.rows;
      j < |rows| && InSlot(rows[j], o, p, v) && SlotLike(rows, o, p, v, y)
  {
    var rows := Upsert(t, o', p', v', q, price).table.rows;
    match FindSlot(t.rows, o', p', v')
    case Some(k) =>
      forall x | x in rows && InSlot(x, o, p, v) ensures x.(quantity := y.quantity) == y {
        var i :| 0 <= i < |rows| && rows[i] == x;
        assert t.rows[i] in t.rows;
      }
    case None =>
      var row := NewRow(t.nextId, o', p', v', q, price);
      assert rows == t.rows + [row];
      assert !InSlot(row, o, p, v);
  }

  /** An upsert into another (product, variant) leaves an empty slot empty. */
  lemma UpsertLeavesSlotEmpty(t: Table, o': Owner, p': Id, v': Option<Id>, q: int, price: int,
                              o: Owner, p: Id, v: Option<Id>)
    requires p' != p || v' != v
    requires forall x :: x in t.rows ==> !InSlot(x, o, p, v)
    ensures forall x :: x in Upsert(t, o', p', v', q, price).table.rows ==> !InSlot(x, o, p, v)
  {
    var rows := Upsert(t, o', p', v', q, price).table.rows;
    match FindSlot(t.rows, o', p', v')
    case Some(k) =>
      forall x | x in rows ensures !InSlot(x, o, p, v) {
        var i :| 0 <= i < |rows| && rows[i] == x;
        assert t.rows[i] in t.rows;
      }
    case None =>
  }

  /** An upsert into an empty slot appends its one row, at `price`. */
  lemma UpsertFillsSlot(t: Table, o: Owner, p: Id, v: Option<Id>, q: int, price: int)
    requires forall x :: x in t.rows ==> !InSlot(x, o, p, v)
    ensures var w := Upsert(t, o, p, v, q, price);
      |t.rows| < |w.table.rows| && w.table.rows[|t.rows|] == w.row &&
      w.row.price == price && SlotLike(w.table.rows, o, p, v, w.row)
  {
    UpsertInserts(t, o, p, v, q, price);
  }

  /** Once the user holds a row for (product, variant), the merge loop keeps
      it at its position and changes it in quantity only. */
  lemma {:induction false} FoldKeepsSlot(t: Table, u: Id, guests: seq<CartRow>, p: Id, v: Option<Id>, j: nat, y: CartRow)
    requires j < |t.rows| && InSlot(t.rows[j], UserOwner(u), p, v)
    requires SlotLike(t.rows, UserOwner(u), p, v, y)
    ensures var rows := Fold(t, u, guests).rows;
      j < |rows| && InSlot(rows[j], UserOwner(u), p, v) && SlotLike(rows, UserOwner(u), p, v, y)
    decreases |guests|
  {
    if guests != [] {
      var g := guests[0];
      UpsertKeepsSlot(t, UserOwner(u), g.productId, g.variantId, g.quantity, g.price, UserOwner(u), p, v, j, y);
      FoldKeepsSlot(MergeRow(t, u, g), u, guests[1..], p, v, j, y);
    }
  }

  /** When the user holds no row for (product, variant) and a guest row has
      it, the merge loop gives the user rows for it at the guest rows' price. */
  lemma {:induction false} FoldFillsSlot(t: Table, u: Id, guests: seq<CartRow>, p: Id, v: Option<Id>, i: nat, price: int)
    requires forall x :: x in t.rows ==> !InSlot(x, UserOwner(u), p, v)
    requires i < |guests| && guests[i].productId == p && guests[i].variantId == v
    requires forall g :: g in guests && g.productId == p && g.variantId == v ==> g.price == price
    ensures var rows := Fold(t, u, guests).rows;
      (exists x :: x in rows && InSlot(x, UserOwner(u), p, v)) &&
      forall x :: x in rows && InSlot(x, UserOwner(u), p, v) ==> x.price == price
    decreases |guests|
  {
    var g := guests[0];
    if g.productId == p && g.variantId == v {
      var w := Upsert(t, UserOwner(u), p, v, g.quantity, g.price);
      UpsertFillsSlot(t, UserOwner(u), p, v, g.quantity, g.price);
      assert g in guests;
      FoldKeepsSlot(w.table, u, guests[1..], p, v, |t.rows|, w.row);
      var rows := Fold(w.table, u, guests[1..]).rows;
      assert rows[|t.rows|] in rows;
    } else {
      UpsertLeavesSlotEmpty(t, UserOwner(u), g.productId, g.variantId, g.quantity, g.price, UserOwner(u), p, v);
      assert forall h :: h in guests[1..] ==> h in guests;
      FoldFillsSlot(MergeRow(t, u, g), u, guests[1..], p, v, i - 1, price);
    }
  }

  /** Every row after an upsert belongs to the (user, product, variant) of an
      old row, or has the upsert's own (product, variant). */
  lemma UpsertOnlySlot(t: Table, o: Owner, p: Id, v: Option<Id>, q: int, price: int, x: CartRow)
    requires x in Upsert(t, o, p, v, q, price).table.rows
    ensures (exists y :: y in t.rows && y.userId == x.userId && y.productId == x.productId && y.variantId == x.variantId)
         || (x.productId == p && x.variantId == v)
  {
    var rows := Upsert(t, o, p, v, q, price).table.rows;
    match FindSlot(t.rows, o, p, v)
    case Some(k) =>
      var i :| 0 <= i < |rows| && rows[i] == x;
      assert t.rows[i] in t.rows;
    case None =>
  }

  /** Every row after the merge loop belongs to the (user, product, variant)
      of an old row, or has the (product, variant) of a guest row. */
  lemma {:induction false} FoldOnlyHeldSlots(t: Table, u: Id, guests: seq<CartRow>, x: CartRow)
    requires x in Fold(t, u, guests).rows
    ensures (exists y :: y in t.rows && y.userId == x.userId && y.productId == x.productId && y.variantId == x.variantId)
         || (exists g :: g in guests && g.productId == x.productId && g.variantId == x.variantId)
    decreases |guests|
  {
    if guests != [] {
      var g0 := guests[0];
      var t' := MergeRow(t, u, g0);
      FoldOnlyHeldSlots(t', u, guests[1..], x);
      if exists y :: y in t'.rows && y.userId == x.userId && y.productId == x.productId && y.variantId == x.variantId {
        var y :| y in t'.rows && y.userId == x.userId && y.productId == x.productId && y.variantId == x.variantId;
        UpsertOnlySlot(t, UserOwner(u), g0.productId, g0.variantId, g0.quantity, g0.price, y);
        assert g0 in guests;
      } else {
        var g :| g in guests[1..] && g.productId == x.productId && g.variantId == x.variantId;
        assert g in guests;
      }
    }
  }

  /** Merging with guest rows present: for every (product, variant) the
      user's quantity afterwards is the user's before plus the session's. */
  lemma MergeConservesQuantity(t: Table, req: Request, sessionId: Option<string>, p: Id, v: Option<Id>)
    requires WellFormed(t)
    requires req.user.Some? && Truthy(sessionId).Some?
    ensures var r := MergeResult(t, req, sessionId);
      var u, sid := req.user.value, Truthy(sessionId).value;
      r.status == 204 &&
      SlotQty(r.table.rows, UserOwner(u), p, v)
        == SlotQty(t.rows, UserOwner(u), p, v) + SlotQty(t.rows, GuestOwner(sid), p, v)
  {
    var u, sid := req.user.value, Truthy(sessionId).value;
    var guests := Filter(t.rows, GuestFilter(sid));
    GuestQty(t.rows, sid, p, v);
    if guests != [] {
      var merged := Fold(t, u, guests);
      FoldQty(t, u, guests, UserOwner(u), p, v);
      FoldSingleOwner(t, u, guests);
      KeepQty(merged.rows, NotGuestFilter(sid), UserOwner(u), p, v);
    }
  }

  /** A (product, variant) the user did not hold before the merge but the
      session did: afterwards the user holds it, at the session row's price. */
  lemma MergeCopiesGuestPrice(t: Table, req: Request, sessionId: Option<string>, g: CartRow)
    requires WellFormed(t)
    requires req.user.Some? && Truthy(sessionId).Some?
    requires g in t.rows && g.sessionId == Truthy(sessionId)
    requires forall x :: x in t.rows ==> !InSlot(x, UserOwner(req.user.value), g.productId, g.variantId)
    ensures var rows := MergeResult(t, req, sessionId).table.rows;
      var o := UserOwner(req.user.value);
      (exists x :: x in rows && InSlot(x, o, g.productId, g.variantId)) &&
      forall x :: x in rows && InSlot(x, o, g.productId, g.variantId) ==> x.price == g.price
  {
    var u, sid := req.user.value, Truthy(sessionId).value;
    var guests := Filter(t.rows, GuestFilter(sid));
    assert g in guests;
    var i :| 0 <= i < |guests| && guests[i] == g;
    var b :| 0 <= b < |t.rows| && t.rows[b] == g;
    forall h | h in guests && h.productId == g.productId && h.variantId == g.variantId
      ensures h.price == g.price
    {
      var a :| 0 <= a < |t.rows| && t.rows[a] == h;
      SlotHoldsOneRow(t, a, b, GuestOwner(sid), g.productId, g.variantId);
    }
    var merged := Fold(t, u, guests);
    FoldFillsSlot(t, u, guests, g.productId, g.variantId, i, g.price);
    FoldSingleOwner(t, u, guests);
    var x :| x in merged.rows && InSlot(x, UserOwner(u), g.productId, g.variantId);
    assert SingleOwner(x);
    assert x in Filter(merged.rows, NotGuestFilter(sid));
  }

  /** A row the user held before the merge is still the user's row for its
      (product, variant): same id, owner, product, variant and price; only
      its quantity may change. */
  lemma MergeKeepsUserRow(t: Table, req: Request, sessionId: Option<string>, y: CartRow)
    requires WellFormed(t)
    requires req.user.Some? && Truthy(sessionId).Some?
    requires y in t.rows && y.userId == req.user
    ensures var rows := MergeResult(t, req, sessionId).table.rows;
      var o := UserOwner(req.user.value);
      (exists x :: x in rows && InSlot(x, o, y.productId, y.variantId)) &&
      forall x :: x in rows && InSlot(x, o, y.productId, y.variantId) ==> x.(quantity := y.quantity) == y
  {
    var u, sid := req.user.value, Truthy(sessionId).value;
    var o := UserOwner(u);
    var j :| 0 <= j < |t.rows| && t.rows[j] == y;
    forall x | x in t.rows && InSlot(x, o, y.productId, y.variantId) ensures x.(quantity := y.quantity) == y {
      var a :| 0 <= a < |t.rows| && t.rows[a] == x;
      SlotHoldsOneRow(t, a, j, o, y.productId, y.variantId);
    }
    var guests := Filter(t.rows, GuestFilter(sid));
    if guests != [] {
      var merged := Fold(t, u, guests);
      FoldKeepsSlot(t, u, guests, y.productId, y.variantId, j, y);
      FoldSingleOwner(t, u, guests);
      assert merged.rows[j] in merged.rows;
      assert merged.rows[j] in Filter(merged.rows, NotGuestFilter(sid));
    }
  }

  /** A merge adds user rows only for a (product, variant) that the user or
      the session already held. */
  lemma MergeAddsOnlyHeldSlots(t: Table, req: Request, sessionId: Option<string>, x: CartRow)
    requires req.user.Some? && Truthy(sessionId).Some?
    requires x in MergeResult(t, req, sessionId).table.rows && x.userId == req.user
    ensures exists y :: y in t.rows && y.productId == x.productId && y.variantId == x.variantId &&
                        (y.userId == req.user || y.sessionId == Truthy(sessionId))
  {
    var u, sid := req.user.value, Truthy(sessionId).value;
    var guests := Filter(t.rows, GuestFilter(sid));
    if guests == [] {
      assert x in t.rows;
    } else {
      FoldOnlyHeldSlots(t, u, guests, x);
      if !exists y :: y in t.rows && y.userId == x.userId && y.productId == x.productId && y.variantId == x.variantId {
        var g :| g in guests && g.productId == x.productId && g.variantId == x.variantId;
        assert g in t.rows && g.sessionId == Some(sid);
      }
    }
  }

  /** After a merge no row of the session remains. */
  lemma MergeRemovesGuestRows(t: Table, req: Request, sessionId: Option<string>)
    requires req.user.Some? && Truthy(sessionId).Some?
    ensures forall x :: x in MergeResult(t, req, sessionId).table.rows ==>
              x.sessionId != Some(Truthy(sessionId).value)
  {
    var sid := Truthy(sessionId).value;
    var guests := Filter(t.rows, GuestFilter(sid));
    assert guests == [] ==> forall x :: x in t.rows ==> x.sessionId != Some(sid);
  }

  /** A merge leaves every row owned by neither the user nor the session
      where it was, and adds no such row. */
  lemma MergeKeepsOthers(t: Table, req: Request, sessionId: Option<string>, x: CartRow)
    requires req.user.Some? && Truthy(sessionId).Some?
    requires x.userId != req.user && x.sessionId != Truthy(sessionId)
    ensures x in MergeResult(t, req, sessionId).table.rows <==> x in t.rows
  {
    var u, sid := req.user.value, Truthy(sessionId).value;
    var guests := Filter(t.rows, GuestFilter(sid));
    if guests != [] {
      FoldKeepsOthers(t, u, guests, x);
    }
  }

  /** A merge from a session without rows changes nothing. */
  lemma MergeEmptyGuestCart(t: Table, req: Request, sessionId: Option<string>)
    requires req.user.Some? && Truthy(sessionId).Some?
    requires forall x :: x in t.rows ==> x.sessionId != Some(Truthy(sessionId).value)
    ensures MergeResult(t, req, sessionId) == Reply(204, t, None)
  {
    FilterNone(t.rows, GuestFilter(Truthy(sessionId).value));
  }

  lemma MergeWellFormed(t: Table, req: Request, sessionId: Option<string>)
    requires WellFormed(t)
    ensures WellFormed(MergeResult(t, req, sessionId).table)
  {
    if req.user.Some? && Truthy(sessionId).Some? {
      var u, sid := req.user.value, Truthy(sessionId).value;
      var guests := Filter(t.rows, GuestFilter(sid));
      if guests != [] {
        FoldWellFormed(t, u, guests);
        FilterWellFormed(Fold(t, u, guests), NotGuestFilter(sid));
      }
    }
  }
}
