/** The item schema: which paths are required, the category and status
    enumerations, the `trim` and `lowercase` setters and the defaults for
    `image` and `createdAt`, as a normaliser and validator over records. */
module ItemSchema {
  import opened Wrappers
  import opened Strings
  import opened Documents

  const Categories: seq<string> := ["Electronics", "Documents", "Accessories", "Clothing", "Others"]
  const Statuses: seq<string> := ["lost", "found"]

  /** A stored item. `image` is `None` for the schema's `null`. */
  datatype Item = Item(
    id: ObjectId,
    title: string,
    description: string,
    category: string,
    status: string,
    location: string,
    date: string,
    image: Option<string>,
    contactName: string,
    contactPhone: string,
    contactEmail: string,
    userId: ObjectId,
    createdAt: nat)

  /** The fields handed to the model when a document is created; every path
      may be missing. */
  datatype ItemInput = ItemInput(
    title: Option<string>,
    description: Option<string>,
    category: Option<string>,
    status: Option<string>,
    location: Option<string>,
    date: Option<string>,
    image: Option<string>,
    contactName: Option<string>,
    contactPhone: Option<string>,
    contactEmail: Option<string>,
    userId: Option<ObjectId>,
    createdAt: Option<nat>)

  /** What a stored item satisfies: every required path is filled, the title
      is trimmed, and category and status are in their enumerations. */
  predicate ValidItem(item: Item) {
    && item.title != "" && Trim(item.title) == item.title
    && item.description != ""
    && item.category in Categories
    && item.status in Statuses
    && item.location != ""
    && item.date != ""
    && item.contactName != ""
    && item.contactPhone != ""
    && item.contactEmail != ""
  }

  /** The `trim` setter of `title`. */
  function SetTitle(v: Option<string>): Option<string> {
    if v.Some? then Some(Trim(v.value)) else None
  }

  /** The `lowercase` setter of `status`. */
  function SetStatus(v: Option<string>): Option<string> {
    if v.Some? then Some(Lower(v.value)) else None
  }

  /** The validator of a required string path (after its setter ran). */
  function CheckRequired(path: string, message: string, v: Option<string>): seq<Violation> {
    if Truthy(v) then [] else [Required(path, message)]
  }

  /** A required path with an enumeration: the required check comes first,
      and the enumeration is only consulted for a filled value. */
  function CheckEnum(path: string, message: string, v: Option<string>, allowed: seq<string>): seq<Violation> {
    if !Truthy(v) then [Required(path, message)]
    else if v.value in allowed then []
    else [NotInEnum(path, v.value)]
  }

  /** Every violation of a document about to be created, in schema order. */
  function Violations(input: ItemInput): seq<Violation> {
    CheckRequired("title", "Title is required", SetTitle(input.title))
    + CheckRequired("description", "Description is required", input.description)
    + CheckEnum("category", "Category is required", input.category, Categories)
    + CheckEnum("status", "Status is required", SetStatus(input.status), Statuses)
    + CheckRequired("location", "Location is required", input.location)
    + CheckRequired("date", "Date is required", input.date)
    + CheckRequired("contactName", "Contact name is required", input.contactName)
    + CheckRequired("contactPhone", "Contact phone is required", input.contactPhone)
    + CheckRequired("contactEmail", "Contact email is required", input.contactEmail)
    + (if input.userId.Some? then [] else [Required("userId", "Path `userId` is required.")])
  }

  /** The schema's acceptance condition, stated path by path. */
  predicate Acceptable(input: ItemInput) {
    && input.title.Some? && Trim(input.title.value) != ""
    && Truthy(input.description)
    && input.category.Some? && input.category.value in Categories
    && input.status.Some? && Lower(input.status.value) in Statuses
    && Truthy(input.location)
    && Truthy(input.date)
    && Truthy(input.contactName)
    && Truthy(input.contactPhone)
    && Truthy(input.contactEmail)
    && input.userId.Some?
  }

  lemma NoViolationsIffAcceptable(input: ItemInput)
    ensures Violations(input) == [] <==> Acceptable(input)
  {
    var v := Violations(input);
    assert |v| ==
      |CheckRequired("title", "Title is required", SetTitle(input.title))|
      + |CheckRequired("description", "Description is required", input.description)|
      + |CheckEnum("category", "Category is required", input.category, Categories)|
      + |CheckEnum("status", "Status is required", SetStatus(input.status), Statuses)|
      + |CheckRequired("location", "Location is required", input.location)|
      + |CheckRequired("date", "Date is required", input.date)|
      + |CheckRequired("contactName", "Contact name is required", input.contactName)|
      + |CheckRequired("contactPhone", "Contact phone is required", input.contactPhone)|
      + |CheckRequired("contactEmail", "Contact email is required", input.contactEmail)|
      + (if input.userId.Some? then 0 else 1);
  }

  /** `Item.create` on `input`, with identifier `id` and the current instant
      `now`: either every validator passes and the stored document is the
      normalised input with its defaults, or the violations are reported. */
  function Create(input: ItemInput, id: ObjectId, now: nat): (r: Result<Item, seq<Violation>>)
    ensures r.Ok? <==> Acceptable(input)
    ensures r.Ok? ==> ValidItem(r.value)
    ensures r.Ok? ==>
      && r.value.id == id
      && r.value.title == Trim(input.title.value)
      && r.value.status == Lower(input.status.value)
      && Some(r.value.description) == input.description
      && Some(r.value.category) == input.category
      && Some(r.value.location) == input.location
      && Some(r.value.date) == input.date
      && r.value.image == input.image
      && Some(r.value.contactName) == input.contactName
      && Some(r.value.contactPhone) == input.contactPhone
      && Some(r.value.contactEmail) == input.contactEmail
      && Some(r.value.userId) == input.userId
      && r.value.createdAt == input.createdAt.GetOr(now)
    ensures r.Err? ==> r.error != [] && r.error == Violations(input)
  {
    TrimIdempotent(input.title.GetOr(""));
    NoViolationsIffAcceptable(input);
    if Violations(input) != [] then Err(Violations(input))
    else
      Ok(Item(id, Trim(input.title.value), input.description.value, input.category.value,
              Lower(input.status.value), input.location.value, input.date.value, input.image,
              input.contactName.value, input.contactPhone.value, input.contactEmail.value,
              input.userId.value, input.createdAt.GetOr(now)))
  }

  /** `"LOST"` is accepted as a status and stored as `"lost"`. */
  lemma UpperCaseStatusAccepted(input: ItemInput, id: ObjectId, now: nat)
    requires Acceptable(input.(status := Some("lost")))
    requires input.status == Some("LOST")
    ensures Create(input, id, now).Ok? && Create(input, id, now).value.status == "lost"
  {
    assert Lower("LOST") == "lost";
  }

  /** A title of white space only fails the required check once trimmed. */
  lemma BlankTitleRejected(input: ItemInput, id: ObjectId, now: nat)
    requires input.title.Some? && input.title.value != []
    requires forall i :: 0 <= i < |input.title.value| ==> IsSpace(input.title.value[i])
    ensures Create(input, id, now).Err?
    ensures Required("title", "Title is required") in Create(input, id, now).error
  {
    TrimAllSpace(input.title.value);
  }

  /** The fields a `findByIdAndUpdate` body may carry; a missing field is
      left as it is. `image` may be set to `null` (`Some(None)`). */
  datatype ItemUpdate = ItemUpdate(
    title: Option<string>,
    description: Option<string>,
    category: Option<string>,
    status: Option<string>,
    location: Option<string>,
    date: Option<string>,
    image: Option<Option<string>>,
    contactName: Option<string>,
    contactPhone: Option<string>,
    contactEmail: Option<string>,
    userId: Option<ObjectId>,
    createdAt: Option<nat>)

  /** The update validators: only the supplied paths are checked, each with
      its setter applied first. */
  function UpdateViolations(u: ItemUpdate): seq<Violation> {
    (if u.title.Some? then CheckRequired("title", "Title is required", SetTitle(u.title)) else [])
    + (if u.description.Some? then CheckRequired("description", "Description is required", u.description) else [])
    + (if u.category.Some? then CheckEnum("category", "Category is required", u.category, Categories) else [])
    + (if u.status.Some? then CheckEnum("status", "Status is required", SetStatus(u.status), Statuses) else [])
    + (if u.location.Some? then CheckRequired("location", "Location is required", u.location) else [])
    + (if u.date.Some? then CheckRequired("date", "Date is required", u.date) else [])
    + (if u.contactName.Some? then CheckRequired("contactName", "Contact name is required", u.contactName) else [])
    + (if u.contactPhone.Some? then CheckRequired("contactPhone", "Contact phone is required", u.contactPhone) else [])
    + (if u.contactEmail.Some? then CheckRequired("contactEmail", "Contact email is required", u.contactEmail) else [])
  }

  /** Overwrites exactly the supplied fields of `item`, after the setters. */
  function Overwrite(item: Item, u: ItemUpdate): Item {
    item.(
      title := SetTitle(u.title).GetOr(item.title),
      description := u.description.GetOr(item.description),
      category := u.category.GetOr(item.category),
      status := SetStatus(u.status).GetOr(item.status),
      location := u.location.GetOr(item.location),
      date := u.date.GetOr(item.date),
      image := u.image.GetOr(item.image),
      contactName := u.contactName.GetOr(item.contactName),
      contactPhone := u.contactPhone.GetOr(item.contactPhone),
      contactEmail := u.contactEmail.GetOr(item.contactEmail),
      userId := u.userId.GetOr(item.userId),
      createdAt := u.createdAt.GetOr(item.createdAt))
  }

  /** A validated update: when the update validators pass, the result is the
      overwritten item, which is still valid if the original was; the
      identifier never changes. */
  function ApplyUpdate(item: Item, u: ItemUpdate): (r: Result<Item, seq<Violation>>)
    ensures r.Err? <==> UpdateViolations(u) != []
    ensures r.Err? ==> r.error == UpdateViolations(u)
    ensures r.Ok? ==> r.value == Overwrite(item, u) && r.value.id == item.id
    ensures r.Ok? && ValidItem(item) ==> ValidItem(r.value)
  {
    TrimIdempotent(u.title.GetOr(""));
    if UpdateViolations(u) != [] then Err(UpdateViolations(u)) else Ok(Overwrite(item, u))
  }

  /** An update that supplies no field leaves the item as it is. */
  lemma EmptyUpdateIsIdentity(item: Item)
    ensures ApplyUpdate(item, ItemUpdate(None, None, None, None, None, None, None, None, None, None, None, None)) == Ok(item)
  {
  }
}
