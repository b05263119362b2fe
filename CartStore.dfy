/** The shared `cart_items` table as the route handlers change it, one store
    call at a time. Each handler is proved to leave the table, and to reply,
    exactly as the matching function of `CartRoutes` says. */
module CartStore {
  import opened Tables
  import opened CartRoutes
  import opened CartRouteLemmas

  class CartTable {
    var rows: seq<CartRow>
    var nextId: nat

    ghost predicate Valid()
      reads this
    {
      WellFormed(Table(rows, nextId))
    }

    function Snapshot(): Table
      reads this
    {
      Table(rows, nextId)
    }

    constructor ()
      ensures Valid() && rows == [] && nextId == 0
    {
      rows, nextId := [], 0;
    }

    /** Look the slot up; update the row found or insert a new one. */
    method Write(o: Owner, p: Id, v: Option<Id>, q: int, price: int) returns (row: CartRow)
      requires Valid()
      modifies this
      ensures Valid()
      ensures Written(Snapshot(), row) == Upsert(old(Snapshot()), o, p, v, q, price)
    {
      UpsertWellFormed(Snapshot(), o, p, v, q, price);
      var existing := FindSlot(rows, o, p, v);
      if existing.Some? {
        var k := existing.value;
        row := rows[k].(quantity := rows[k].quantity + q);
        rows := rows[k := row];
      } else {
        row := NewRow(nextId, o, p, v, q, price);
        rows := rows + [row];
        nextId := nextId + 1;
      }
    }

    /** GET `/`. */
    method List(req: Request) returns (status: int, items: seq<CartRow>)
      ensures status == 200 && items == ListResult(rows, req)
    {
      if req.user.None? && Truthy(req.sessionHeader).None? {
        return 200, [];
      }
      items := Filter(rows, ListFilter(req));
      status := 200;
    }

    /** POST `/`. */
    method Add(catalog: map<Id, Product>, req: Request, body: AddBody) returns (status: int, item: Option<CartRow>)
      requires Valid()
      modifies this
      ensures Valid()
      ensures Reply(status, Snapshot(), item) == AddResult(old(Snapshot()), catalog, req, body)
    {
      var productId := Truthy(body.productId);
      if productId.None? {
        return 400, None;
      }
      if productId.value !in catalog {
        return 404, None;
      }
      var price := CapturedPrice(catalog[productId.value]);
      var row := Write(OwnerOf(req), productId.value, Truthy(body.variantId), AddedQuantity(body.quantity), price);
      status, item := 201, Some(row);
    }

    /** PUT `/:id`. */
    method Update(req: Request, id: nat, quantity: Option<int>) returns (status: int, item: Option<CartRow>)
      requires Valid()
      modifies this
      ensures Valid()
      ensures Reply(status, Snapshot(), item) == UpdateResult(old(Snapshot()), req, id, quantity)
    {
      if quantity.None? || quantity.value < 1 {
        return 400, None;
      }
      var matched := Filter(rows, ItemFilter(req, id));
      if matched == [] {
        return 404, None;
      }
      UpdateWellFormed(Snapshot(), req, id, quantity);
      rows := SetQuantity(rows, ItemFilter(req, id), quantity.value);
      status, item := 200, Some(matched[0].(quantity := quantity.value));
    }

    /** DELETE `/:id`. */
    method Remove(req: Request, id: nat) returns (status: int)
      requires Valid()
      modifies this
      ensures Valid()
      ensures Reply(status, Snapshot(), None) == RemoveResult(old(Snapshot()), req, id)
    {
      RemoveWellFormed(Snapshot(), req, id);
      rows := Filter(rows, NotItemFilter(req, id));
      status := 204;
    }

    /** DELETE `/`. */
    method Clear(req: Request) returns (status: int)
      requires Valid()
      modifies this
      ensures Valid()
      ensures Reply(status, Snapshot(), None) == ClearResult(old(Snapshot()), req)
    {
      ClearWellFormed(Snapshot(), req);
      rows := Filter(rows, NotCallerFilter(req));
      status := 204;
    }

    /** POST `/merge`: fold the session's rows into the user's one at a time,
        then delete the session's rows in one call. */
    method Merge(req: Request, sessionId: Option<string>) returns (status: int)
      requires Valid()
      modifies this
      ensures Valid()
      ensures Reply(status, Snapshot(), None) == MergeResult(old(Snapshot()), req, sessionId)
    {
      if req.user.None? {
        return 401;
      }
      var sid := Truthy(sessionId);
      if sid.None? {
        return 400;
      }
      var u, s := req.user.value, sid.value;
      var guests := Filter(rows, GuestFilter(s));
      if guests != [] {
        ghost var before := Snapshot();
        for i := 0 to |guests|
          invariant Valid()
          invariant Fold(Snapshot(), u, guests[i..]) == Fold(before, u, guests)
        {
          var g := guests[i];
          assert guests[i..][1..] == guests[i + 1..];
          var _ := Write(UserOwner(u), g.productId, g.variantId, g.quantity, g.price);
        }
        FilterWellFormed(Snapshot(), NotGuestFilter(s));
        rows := Filter(rows, NotGuestFilter(s));
      }
      status := 204;
    }
  }
}
