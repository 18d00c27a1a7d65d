/** The writing endpoints of the item controller. The collection is an
    object whose table and clock `createItem`, `updateItem` and `deleteItem`
    change in place; what each change does to the listings is proved about
    the corresponding change of a `Collection` value. */
module ItemStore {
  import opened Wrappers
  import opened Strings
  import opened Documents
  import opened ItemSchema
  import opened UserSchema
  import opened ItemQueries

  // The changes to the collection, as values

  /** Stores `x` under the next identifier and moves the clock on. */
  function Insert(c: Collection, x: Item): (r: Collection)
    ensures WellKeyed(c) && x.id == c.clock ==> WellKeyed(r)
    ensures r.clock == c.clock + 1 && c.clock in r.items && r.items[c.clock] == x
    ensures forall k :: k != c.clock ==> (k in r.items <==> k in c.items)
    ensures forall k :: k in c.items && k != c.clock ==> r.items[k] == c.items[k]
  {
    Collection(c.items[c.clock := x], c.clock + 1)
  }

  /** Puts `x` in place of the document stored under `id`. */
  function Replace(c: Collection, id: ObjectId, x: Item): (r: Collection)
    ensures WellKeyed(c) && id in c.items && x.id == id ==> WellKeyed(r)
    ensures r.clock == c.clock && id in r.items && r.items[id] == x
    ensures forall k :: k != id ==> (k in r.items <==> k in c.items)
    ensures forall k :: k in c.items && k != id ==> r.items[k] == c.items[k]
  {
    Collection(c.items[id := x], c.clock)
  }

  /** Drops the document stored under `id`. */
  function Remove(c: Collection, id: ObjectId): (r: Collection)
    ensures WellKeyed(c) ==> WellKeyed(r)
    ensures r.clock == c.clock && id !in r.items
    ensures forall k :: k != id ==> (k in r.items <==> k in c.items)
    ensures forall k :: k in r.items ==> r.items[k] == c.items[k]
  {
    Collection(c.items - {id}, c.clock)
  }

  /** After a create, a listing holds what it held before plus the new
      document when it satisfies the criterion. */
  lemma ListingAfterInsert(c: Collection, x: Item, crit: Criterion, y: Item)
    requires WellKeyed(c) && x.id == c.clock
    ensures y in Find(Insert(c, x), crit) <==> (y == x && Matches(crit, x)) || y in Find(c, crit)
  {
    FindCount(c, crit, y);
    FindCount(Insert(c, x), crit, y);
    if StoredIn(c, y) {
      assert y.id < c.clock;
    }
  }

  /** After an update, a listing holds the new version when it satisfies the
      criterion, and otherwise what it held apart from the old version. */
  lemma ListingAfterReplace(c: Collection, id: ObjectId, x: Item, crit: Criterion, y: Item)
    requires WellKeyed(c) && id in c.items && x.id == id
    ensures y in Find(Replace(c, id, x), crit) <==>
      (y == x && Matches(crit, x)) || (y in Find(c, crit) && y.id != id)
  {
    FindCount(c, crit, y);
    FindCount(Replace(c, id, x), crit, y);
  }

  /** After a delete, a listing holds what it held apart from that document. */
  lemma ListingAfterRemove(c: Collection, id: ObjectId, crit: Criterion, y: Item)
    requires WellKeyed(c)
    ensures y in Find(Remove(c, id), crit) <==> y in Find(c, crit) && y.id != id
  {
    FindCount(c, crit, y);
    FindCount(Remove(c, id), crit, y);
  }

  // The request bodies

  /** The ten fields `createItem` takes out of `req.body`; any other key of
      the body, `userId` and `createdAt` included, is ignored. */
  datatype CreateBody = CreateBody(
    title: Option<string>,
    description: Option<string>,
    category: Option<string>,
    status: Option<string>,
    location: Option<string>,
    date: Option<string>,
    contactName: Option<string>,
    contactPhone: Option<string>,
    contactEmail: Option<string>,
    image: Option<string>)

  /** The nine fields the handler itself requires to be truthy. */
  predicate HasRequiredFields(b: CreateBody) {
    && Truthy(b.title) && Truthy(b.description) && Truthy(b.category) && Truthy(b.status)
    && Truthy(b.location) && Truthy(b.date) && Truthy(b.contactName)
    && Truthy(b.contactPhone) && Truthy(b.contactEmail)
  }

  const MissingFieldsMessage := "Please provide all required fields"
  const NotFoundMessage := "Item not found"
  const UpdateForbiddenMessage := "Not authorized to update this item"
  const DeleteForbiddenMessage := "Not authorized to delete this item"
  const DeletedMessage := "Item deleted successfully"

  /** What `createItem` hands to `Item.create`: the body's fields, `image`
      replaced by `null` unless truthy, and the caller's identifier as
      owner. */
  function CreateInput(b: CreateBody, owner: ObjectId): (input: ItemInput)
    ensures input.userId == Some(owner) && input.createdAt.None?
    ensures input.image == (if Truthy(b.image) then b.image else None)
  {
    ItemInput(b.title, b.description, b.category, b.status, b.location, b.date,
              if Truthy(b.image) then b.image else None,
              b.contactName, b.contactPhone, b.contactEmail, Some(owner), None)
  }

  // What each write handler answers and leaves behind, given the
  // collection before and after it and the caller in `req.user`

  /** `createItem`: 400 without the nine fields, 500 without a caller,
      then the schema's refusal (500, nothing stored) or 201 with the
      document inserted under the next identifier. */
  predicate CreateOutcome(before: Collection, after: Collection, body: CreateBody, caller: Option<PublicUser>, r: Reply) {
    if !HasRequiredFields(body) then r == Reply(400, Message(MissingFieldsMessage)) && after == before
    else if caller.None? then r == Reply(500, Message(NullUserMessage)) && after == before
    else
      var created := Create(CreateInput(body, caller.value.id), before.clock, before.clock);
      if created.Ok? then r == Reply(201, One(created.value)) && after == Insert(before, created.value)
      else r == Reply(500, Message(ValidationMessage("Item validation failed", created.error))) && after == before
  }

  /** `updateItem`: 404, 500 without a caller, 403 for another owner's
      document, 500 for a refused update; otherwise 200 with the entry
      replaced by the updated document. */
  predicate UpdateOutcome(before: Collection, after: Collection, id: ObjectId, update: ItemUpdate, caller: Option<PublicUser>, r: Reply) {
    if id !in before.items then r == Reply(404, Message(NotFoundMessage)) && after == before
    else if caller.None? then r == Reply(500, Message(NullUserMessage)) && after == before
    else if before.items[id].userId != caller.value.id then r == Reply(403, Message(UpdateForbiddenMessage)) && after == before
    else
      var updated := ApplyUpdate(before.items[id], update);
      if updated.Ok? then r == Reply(200, One(updated.value)) && after == Replace(before, id, updated.value)
      else r == Reply(500, Message(ValidationMessage("Validation failed", updated.error))) && after == before
  }

  /** `deleteItem`: the same refusals as `updateItem`, then 200 with the
      entry removed. */
  predicate DeleteOutcome(before: Collection, after: Collection, id: ObjectId, caller: Option<PublicUser>, r: Reply) {
    if id !in before.items then r == Reply(404, Message(NotFoundMessage)) && after == before
    else if caller.None? then r == Reply(500, Message(NullUserMessage)) && after == before
    else if before.items[id].userId != caller.value.id then r == Reply(403, Message(DeleteForbiddenMessage)) && after == before
    else r == Reply(200, Message(DeletedMessage)) && after == Remove(before, id)
  }

  class ItemStore {
    var items: map<ObjectId, Item>
    var clock: nat

    function Snapshot(): Collection
      reads this
    {
      Collection(items, clock)
    }

    /** Every document sits under its identifier and satisfies the schema. */
    predicate Valid()
      reads this
    {
      WellKeyed(Snapshot()) && forall k :: k in items ==> ValidItem(items[k])
    }

    constructor ()
      ensures Valid() && items == map[] && clock == 0
    {
      items := map[];
      clock := 0;
    }

    /** `createItem`. The handler's own check of the nine fields comes first
        and answers 400; then reading the caller's identifier throws when
        there is no caller; then the schema either refuses the document,
        which surfaces as 500 with the validation message, or the document
        is stored under the next identifier with the clock as its creation
        instant, and returned with 201. */
    method CreateItem(body: CreateBody, caller: Option<PublicUser>) returns (r: Reply)
      requires Valid()
      modifies this
      ensures Valid()
      ensures CreateOutcome(old(Snapshot()), Snapshot(), body, caller, r)
      ensures !HasRequiredFields(body) ==>
        r == Reply(400, Message(MissingFieldsMessage)) && items == old(items) && clock == old(clock)
      ensures HasRequiredFields(body) && caller.None? ==>
        r == Reply(500, Message(NullUserMessage)) && items == old(items) && clock == old(clock)
      ensures HasRequiredFields(body) && caller.Some? ==>
        var created := Create(CreateInput(body, caller.value.id), old(clock), old(clock));
        if created.Ok? then
          && r == Reply(201, One(created.value))
          && Snapshot() == Insert(old(Snapshot()), created.value)
        else
          && r == Reply(500, Message(ValidationMessage("Item validation failed", created.error)))
          && items == old(items) && clock == old(clock)
      ensures r.status == 201 ==>
        && r.body.One?
        && r.body.item.userId == caller.value.id
        && r.body.item.id == old(clock) && r.body.item.createdAt == old(clock)
        && r.body.item.image == (if Truthy(body.image) then body.image else None)
        && GetItemById(Snapshot(), r.body.item.id) == Reply(200, One(r.body.item))
    {
      if !HasRequiredFields(body) {
        return Reply(400, Message(MissingFieldsMessage));
      }
      if caller.None? {
        return Reply(500, Message(NullUserMessage));
      }
      var created := Create(CreateInput(body, caller.value.id), clock, clock);
      if created.Err? {
        return Reply(500, Message(ValidationMessage("Item validation failed", created.error)));
      }
      items := items[clock := created.value];
      clock := clock + 1;
      r := Reply(201, One(created.value));
    }

    /** `updateItem`: 404 when nothing is stored under `id`, a throw when
        there is no caller, 403 when the stored document belongs to someone
        else; then the update validators run on the supplied fields, and
        either refuse (500) or the supplied fields overwrite that one
        document, which comes back with 200. */
    method UpdateItem(id: ObjectId, update: ItemUpdate, caller: Option<PublicUser>) returns (r: Reply)
      requires Valid()
      modifies this
      ensures Valid() && clock == old(clock)
      ensures UpdateOutcome(old(Snapshot()), Snapshot(), id, update, caller, r)
      ensures id !in old(items) ==> r == Reply(404, Message(NotFoundMessage)) && items == old(items)
      ensures id in old(items) && caller.None? ==>
        r == Reply(500, Message(NullUserMessage)) && items == old(items)
      ensures id in old(items) && caller.Some? && old(items)[id].userId != caller.value.id ==>
        r == Reply(403, Message(UpdateForbiddenMessage)) && items == old(items)
      ensures id in old(items) && caller.Some? && old(items)[id].userId == caller.value.id ==>
        var updated := ApplyUpdate(old(items)[id], update);
        if updated.Ok? then
          && r == Reply(200, One(updated.value))
          && Snapshot() == Replace(old(Snapshot()), id, updated.value)
        else
          && r == Reply(500, Message(ValidationMessage("Validation failed", updated.error)))
          && items == old(items)
      ensures r.status != 200 ==> items == old(items)
    {
      if id !in items {
        return Reply(404, Message(NotFoundMessage));
      }
      if caller.None? {
        return Reply(500, Message(NullUserMessage));
      }
      if items[id].userId != caller.value.id {
        return Reply(403, Message(UpdateForbiddenMessage));
      }
      var updated := ApplyUpdate(items[id], update);
      if updated.Err? {
        return Reply(500, Message(ValidationMessage("Validation failed", updated.error)));
      }
      items := items[id := updated.value];
      r := Reply(200, One(updated.value));
    }

    /** `deleteItem`: the same checks in the same order as `updateItem`,
        then exactly that document is removed. */
    method DeleteItem(id: ObjectId, caller: Option<PublicUser>) returns (r: Reply)
      requires Valid()
      modifies this
      ensures Valid() && clock == old(clock)
      ensures DeleteOutcome(old(Snapshot()), Snapshot(), id, caller, r)
      ensures id !in old(items) ==> r == Reply(404, Message(NotFoundMessage)) && items == old(items)
      ensures id in old(items) && caller.None? ==>
        r == Reply(500, Message(NullUserMessage)) && items == old(items)
      ensures id in old(items) && caller.Some? && old(items)[id].userId != caller.value.id ==>
        r == Reply(403, Message(DeleteForbiddenMessage)) && items == old(items)
      ensures id in old(items) && caller.Some? && old(items)[id].userId == caller.value.id ==>
        r == Reply(200, Message(DeletedMessage)) && Snapshot() == Remove(old(Snapshot()), id)
      ensures r.status != 200 ==> items == old(items)
      ensures r.status == 200 ==> GetItemById(Snapshot(), id) == Reply(404, Message(NotFoundMessage))
    {
      if id !in items {
        return Reply(404, Message(NotFoundMessage));
      }
      if caller.None? {
        return Reply(500, Message(NullUserMessage));
      }
      if items[id].userId != caller.value.id {
        return Reply(403, Message(DeleteForbiddenMessage));
      }
      items := items - {id};
      r := Reply(200, Message(DeletedMessage));
    }
  }

  /** A body that passes the handler's check and the schema is stored: the
      outcome of `createItem` for an authenticated caller depends on the
      schema only through the status, which must lower-case to an allowed
      value, the category, and a title that is not blank. */
  lemma CreateAcceptedIff(b: CreateBody, owner: ObjectId, now: nat)
    requires HasRequiredFields(b)
    ensures Create(CreateInput(b, owner), now, now).Ok? <==>
      && Trim(b.title.value) != ""
      && b.category.value in Categories
      && Lower(b.status.value) in Statuses
  {
  }
}
