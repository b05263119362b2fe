/** The `cart_items` table behind the cart routes: rows keyed by a user id or
    a session id, and each route handler as a function from the table before
    the request to the reply and the table after it. */
module CartRoutes {
  import opened Tables

  /** A catalog entry: list price and optional sale price, in cents. */
  datatype Product = Product(price: int, salePrice: Option<int>)

  /** One `cart_items` row. Exactly one of `userId`/`sessionId` is set in a
      well-formed table; `quantity` is not floored by the add route. */
  datatype CartRow = CartRow(
    id: nat,
    userId: Option<Id>,
    sessionId: Option<Id>,
    productId: Id,
    variantId: Option<Id>,
    quantity: int,
    price: int)

  /** The table: its rows in insertion order and the next id the store assigns. */
  datatype Table = Table(rows: seq<CartRow>, nextId: nat)

  /** What a request carries: the authenticated user (if any), the raw
      `session-id` header, and the id the session middleware would generate
      when the header is missing or empty. */
  datatype Request = Request(user: Option<Id>, sessionHeader: Option<string>, generated: Id)

  /** The body of an add request; `quantity` is None when missing or not a number. */
  datatype AddBody = AddBody(productId: Option<string>, variantId: Option<string>, quantity: Option<int>)

  /** The owner under which the add route files a row. */
  datatype Owner = UserOwner(uid: Id) | GuestOwner(sid: Id)

  /** A handler's status code, the table afterwards, and the row it returns. */
  datatype Reply = Reply(status: int, table: Table, item: Option<CartRow>)

  /** The result of writing one row: the table afterwards and the row written. */
  datatype Written = Written(table: Table, row: CartRow)

  // ---------------------------------------------------------------------
  // Identity resolution

  /** `req.sessionID`: the header when it is truthy, else a generated id. */
  function SessionOf(req: Request): (s: Id)
    ensures Truthy(req.sessionHeader).Some? ==> s == Truthy(req.sessionHeader).value
    ensures Truthy(req.sessionHeader).None? ==> s == req.generated
  {
    match Truthy(req.sessionHeader)
    case Some(h) => h
    case None => req.generated
  }

  /** `getUserId`: the user's id when authenticated, else the session id. */
  function GetUserId(req: Request): (id: Id)
    ensures req.user.Some? ==> id == req.user.value
    ensures req.user.None? ==> id == SessionOf(req)
  {
    if req.user.Some? then req.user.value else SessionOf(req)
  }

  /** The owner of rows the add route writes: the user when authenticated,
      else the session. */
  function OwnerOf(req: Request): (o: Owner)
    ensures o.UserOwner? <==> req.user.Some?
    ensures req.user.Some? ==> o.uid == req.user.value
    ensures req.user.None? ==> o.sid == SessionOf(req)
  {
    if req.user.Some? then UserOwner(req.user.value) else GuestOwner(SessionOf(req))
  }

  predicate OwnedBy(r: CartRow, o: Owner) {
    match o
    case UserOwner(u) => r.userId == Some(u)
    case GuestOwner(s) => r.sessionId == Some(s)
  }

  /** The row belongs to the slot (owner, product, variant). */
  predicate InSlot(r: CartRow, o: Owner, p: Id, v: Option<Id>) {
    OwnedBy(r, o) && r.productId == p && r.variantId == v
  }

  /** The `or(user_id.eq.<getUserId>, session_id.eq.<sessionID>)` filter of
      the update and delete routes. */
  predicate CallerMatches(r: CartRow, req: Request)
    ensures req.user.Some? ==>
              (CallerMatches(r, req) <==> r.userId == req.user || r.sessionId == Some(SessionOf(req)))
    ensures req.user.None? ==>
              (CallerMatches(r, req) <==> r.userId == Some(SessionOf(req)) || r.sessionId == Some(SessionOf(req)))
  {
    r.userId == Some(GetUserId(req)) || r.sessionId == Some(SessionOf(req))
  }

  /** The list route's filter: it uses the raw header, not the generated id,
      and an absent value matches no row. */
  predicate Listed(r: CartRow, req: Request)
    ensures req.user.None? && Truthy(req.sessionHeader).None? ==> !Listed(r, req)
    ensures SingleOwner(r) && r.userId.Some? ==> (Listed(r, req) <==> r.userId == req.user)
    ensures SingleOwner(r) && r.sessionId.Some? ==> (Listed(r, req) <==> r.sessionId == Truthy(req.sessionHeader))
  {
    (req.user.Some? && r.userId == req.user) ||
    (Truthy(req.sessionHeader).Some? && r.sessionId == Truthy(req.sessionHeader))
  }

  function ListFilter(req: Request): CartRow -> bool {
    r => Listed(r, req)
  }

  function ItemFilter(req: Request, id: nat): CartRow -> bool {
    (r: CartRow) => r.id == id && CallerMatches(r, req)
  }

  function NotItemFilter(req: Request, id: nat): CartRow -> bool {
    (r: CartRow) => !(r.id == id && CallerMatches(r, req))
  }

  function NotCallerFilter(req: Request): CartRow -> bool {
    r => !CallerMatches(r, req)
  }

  function GuestFilter(sid: Id): CartRow -> bool {
    (r: CartRow) => r.sessionId == Some(sid)
  }

  function NotGuestFilter(sid: Id): CartRow -> bool {
    (r: CartRow) => r.sessionId != Some(sid)
  }

  // ---------------------------------------------------------------------
  // Values computed from a request

  /** `product.sale_price || product.price`: a zero or null sale price falls
      back to the list price. */
  function CapturedPrice(p: Product): (r: int)
    ensures p.salePrice.Some? && p.salePrice.value != 0 ==> r == p.salePrice.value
    ensures p.salePrice.None? || p.salePrice.value == 0 ==> r == p.price
  {
    if p.salePrice.Some? && p.salePrice.value != 0 then p.salePrice.value else p.price
  }

  /** `parseInt(quantity) || 1`: a missing, non-numeric or zero quantity
      counts as 1; any other integer, negative ones included, is taken as is. */
  function AddedQuantity(q: Option<int>): (r: int)
    ensures r != 0
    ensures q.Some? && q.value != 0 ==> r == q.value
    ensures q.None? || q.value == 0 ==> r == 1
  {
    if q.Some? && q.value != 0 then q.value else 1
  }

  // ---------------------------------------------------------------------
  // Table invariant

  predicate SingleOwner(r: CartRow) {
    r.userId.Some? != r.sessionId.Some?
  }

  predicate SameSlot(a: CartRow, b: CartRow) {
    a.userId == b.userId && a.sessionId == b.sessionId &&
    a.productId == b.productId && a.variantId == b.variantId
  }

  /** Rows in table order: increasing ids and never two rows in one slot. */
  predicate Apart(a: CartRow, b: CartRow) {
    a.id < b.id && !SameSlot(a, b)
  }

  /** Every row has exactly one owner and an id below `nextId`; ids increase
      along the table and no two rows share (owner, product, variant). */
  ghost predicate WellFormed(t: Table) {
    (forall x :: x in t.rows ==> SingleOwner(x) && x.id < t.nextId) &&
    Pairwise(t.rows, Apart)
  }

  // ---------------------------------------------------------------------
  // Check-then-update-or-insert

  /** The store lookup `.eq(owner).eq('product_id', p).eq('variant_id', v)`:
      the index of the first row in the slot, or None when there is none. */
  function FindSlot(rows: seq<CartRow>, o: Owner, p: Id, v: Option<Id>): (k: Option<nat>)
    ensures k.Some? ==> k.value < |rows| && InSlot(rows[k.value], o, p, v)
    ensures k.Some? ==> forall i :: 0 <= i < k.value ==> !InSlot(rows[i], o, p, v)
    ensures k.None? ==> forall i :: 0 <= i < |rows| ==> !InSlot(rows[i], o, p, v)
  {
    if rows == [] then None
    else if InSlot(rows[0], o, p, v) then Some(0)
    else match FindSlot(rows[1..], o, p, v)
      case None => None
      case Some(k) => Some(k + 1)
  }

  /** The row the store inserts for owner `o`: the owner's column set, the
      other one null. */
  function NewRow(id: nat, o: Owner, p: Id, v: Option<Id>, q: int, price: int): (r: CartRow)
    ensures SingleOwner(r) && InSlot(r, o, p, v)
  {
    CartRow(id,
            if o.UserOwner? then Some(o.uid) else None,
            if o.GuestOwner? then Some(o.sid) else None,
            p, v, q, price)
  }

  /** Add `q` to the quantity of the slot's row when there is one (its price
      untouched); otherwise insert a new row with quantity `q` and `price`. */
  function Upsert(t: Table, o: Owner, p: Id, v: Option<Id>, q: int, price: int): (w: Written)
    ensures InSlot(w.row, o, p, v) && w.row in w.table.rows
    ensures |t.rows| <= |w.table.rows| <= |t.rows| + 1 && t.nextId <= w.table.nextId
    ensures forall i :: 0 <= i < |t.rows| ==> w.table.rows[i].id == t.rows[i].id
  {
    match FindSlot(t.rows, o, p, v)
    case Some(k) =>
      var row := t.rows[k].(quantity := t.rows[k].quantity + q);
      assert t.rows[k := row][k] == row;
      Written(Table(t.rows[k := row], t.nextId), row)
    case None =>
      var row := NewRow(t.nextId, o, p, v, q, price);
      Written(Table(t.rows + [row], t.nextId + 1), row)
  }

  // ---------------------------------------------------------------------
  // Route handlers

  /** GET `/`: no header and no user gives the empty list; otherwise the rows
      of the list filter. */
  function ListResult(rows: seq<CartRow>, req: Request): (r: seq<CartRow>)
    ensures req.user.None? && Truthy(req.sessionHeader).None? ==> r == []
    ensures forall x :: x in r <==> x in rows && Listed(x, req)
  {
    if req.user.None? && Truthy(req.sessionHeader).None? then []
    else Filter(rows, ListFilter(req))
  }

  /** POST `/`. */
  function AddResult(t: Table, catalog: map<Id, Product>, req: Request, body: AddBody): (r: Reply)
    ensures r.status == 400 <==> Truthy(body.productId).None?
    ensures r.status == 404 <==> Truthy(body.productId).Some? && Truthy(body.productId).value !in catalog
    ensures r.status != 201 ==> r.table == t && r.item.None?
    ensures r.status in {201, 400, 404}
  {
    match Truthy(body.productId)
    case None => Reply(400, t, None)
    case Some(pid) =>
      if pid !in catalog then Reply(404, t, None)
      else
        var w := Upsert(t, OwnerOf(req), pid, Truthy(body.variantId),
                        AddedQuantity(body.quantity), CapturedPrice(catalog[pid]));
        Reply(201, w.table, Some(w.row))
  }

  /** Every row the filter selects gets quantity `q`; the others are kept. */
  function SetQuantity(rows: seq<CartRow>, sel: CartRow -> bool, q: int): (r: seq<CartRow>)
    ensures |r| == |rows|
    ensures forall i :: 0 <= i < |rows| ==>
              r[i] == if sel(rows[i]) then rows[i].(quantity := q) else rows[i]
  {
    seq(|rows|, i requires 0 <= i < |rows| =>
      if sel(rows[i]) then rows[i].(quantity := q) else rows[i])
  }

  /** PUT `/:id`. */
  function UpdateResult(t: Table, req: Request, id: nat, quantity: Option<int>): (r: Reply)
    ensures r.status == 400 <==> quantity.None? || quantity.value < 1
    ensures r.status == 404 <==>
              quantity.Some? && quantity.value >= 1 &&
              forall x :: x in t.rows ==> !(x.id == id && CallerMatches(x, req))
    ensures r.status != 200 ==> r.table == t && r.item.None?
    ensures r.status in {200, 400, 404}
  {
    if quantity.None? || quantity.value < 1 then Reply(400, t, None)
    else
      var matched := Filter(t.rows, ItemFilter(req, id));
      if matched == [] then Reply(404, t, None)
      else
        assert matched[0] in matched;
        Reply(200, Table(SetQuantity(t.rows, ItemFilter(req, id), quantity.value), t.nextId),
              Some(matched[0].(quantity := quantity.value)))
  }

  /** DELETE `/:id`: 204 whether or not a row matched. */
  function RemoveResult(t: Table, req: Request, id: nat): (r: Reply)
    ensures r.status == 204 && r.table.nextId == t.nextId
    ensures forall x :: x in r.table.rows <==> x in t.rows && !(x.id == id && CallerMatches(x, req))
  {
    Reply(204, Table(Filter(t.rows, NotItemFilter(req, id)), t.nextId), None)
  }

  /** DELETE `/`: 204 whether or not a row matched. */
  function ClearResult(t: Table, req: Request): (r: Reply)
    ensures r.status == 204 && r.table.nextId == t.nextId
    ensures forall x :: x in r.table.rows <==> x in t.rows && !CallerMatches(x, req)
  {
    Reply(204, Table(Filter(t.rows, NotCallerFilter(req)), t.nextId), None)
  }

  /** One step of the merge loop: the guest row's quantity goes into the
      user's row for its (product, variant), or a copy becomes a user row. */
  function MergeRow(t: Table, u: Id, g: CartRow): (r: Table)
    ensures |t.rows| <= |r.rows| <= |t.rows| + 1
    ensures forall i :: 0 <= i < |t.rows| ==> r.rows[i].id == t.rows[i].id
  {
    Upsert(t, UserOwner(u), g.productId, g.variantId, g.quantity, g.price).table
  }

  /** The merge loop over the guest rows, in order. */
  function Fold(t: Table, u: Id, guests: seq<CartRow>): (r: Table)
    ensures |t.rows| <= |r.rows| <= |t.rows| + |guests|
    ensures forall i :: 0 <= i < |t.rows| ==> r.rows[i].id == t.rows[i].id
    decreases |guests|
  {
    if guests == [] then t else Fold(MergeRow(t, u, guests[0]), u, guests[1..])
  }

  /** POST `/merge`. */
  function MergeResult(t: Table, req: Request, sessionId: Option<string>): (r: Reply)
    ensures r.status == 401 <==> req.user.None?
    ensures r.status == 400 <==> req.user.Some? && Truthy(sessionId).None?
    ensures r.status != 204 ==> r.table == t
    ensures r.status in {204, 400, 401} && r.item.None?
  {
    if req.user.None? then Reply(401, t, None)
    else match Truthy(sessionId)
      case None => Reply(400, t, None)
      case Some(sid) =>
        var guests := Filter(t.rows, GuestFilter(sid));
        if guests == [] then Reply(204, t, None)
        else
          var merged := Fold(t, req.user.value, guests);
          Reply(204, Table(Filter(merged.rows, NotGuestFilter(sid)), merged.nextId), None)
  }
}
