/** The event service: how an event record of table `event_c` is shown to
    the UI, which columns a create or an update writes, and when each
    operation fails. */
module Events {
  import opened Js
  import opened Sdk

  /** The columns of table `event_c`, named as in the database. */
  datatype Column =
    | Id | Name | title_c | description_c | category_c | date_c | start_time_c | end_time_c
    | location_c | capacity_c | organizer_id_c | image_url_c | is_featured_c | CreatedOn | ModifiedOn

  /** A record of table `event_c`, sent or received; a column the record
      lacks holds `undefined`. */
  datatype Row = Row(
    Id: Value, Name: Value, title_c: Value, description_c: Value, category_c: Value,
    date_c: Value, start_time_c: Value, end_time_c: Value, location_c: Value,
    capacity_c: Value, organizer_id_c: Value, image_url_c: Value, is_featured_c: Value,
    CreatedOn: Value, ModifiedOn: Value)

  /** The record with no column at all. */
  const Blank := Row(Undefined, Undefined, Undefined, Undefined, Undefined, Undefined, Undefined,
    Undefined, Undefined, Undefined, Undefined, Undefined, Undefined, Undefined, Undefined)

  /** `record[c]`. */
  function At(r: Row, c: Column): Value {
    match c
    case Id => r.Id
    case Name => r.Name
    case title_c => r.title_c
    case description_c => r.description_c
    case category_c => r.category_c
    case date_c => r.date_c
    case start_time_c => r.start_time_c
    case end_time_c => r.end_time_c
    case location_c => r.location_c
    case capacity_c => r.capacity_c
    case organizer_id_c => r.organizer_id_c
    case image_url_c => r.image_url_c
    case is_featured_c => r.is_featured_c
    case CreatedOn => r.CreatedOn
    case ModifiedOn => r.ModifiedOn
  }

  /** The fields of the UI's event object that a create or an update takes. */
  datatype Field =
    | title | description | category | date | startTime | endTime | location
    | capacity | organizerId | imageUrl | isFeatured

  /** The UI's input object; a field it lacks holds `undefined`. */
  datatype EventData = EventData(
    title: Value, description: Value, category: Value, date: Value, startTime: Value,
    endTime: Value, location: Value, capacity: Value, organizerId: Value,
    imageUrl: Value, isFeatured: Value)

  /** `eventData[f]`. */
  function Given(d: EventData, f: Field): Value {
    match f
    case title => d.title
    case description => d.description
    case category => d.category
    case date => d.date
    case startTime => d.startTime
    case endTime => d.endTime
    case location => d.location
    case capacity => d.capacity
    case organizerId => d.organizerId
    case imageUrl => d.imageUrl
    case isFeatured => d.isFeatured
  }

  /** An event as the UI sees it. */
  datatype Event = Event(
    id: Value, title: Value, description: Value, category: Value, date: Value,
    startTime: Value, endTime: Value, location: Value, capacity: Value,
    organizerId: Value, imageUrl: Value, isFeatured: Value,
    createdAt: Value, updatedAt: Value)

  /** The input field a column is written from, if any. */
  function FieldOf(c: Column): Option<Field> {
    match c
    case Name => Some(title)
    case title_c => Some(title)
    case description_c => Some(description)
    case category_c => Some(category)
    case date_c => Some(date)
    case start_time_c => Some(startTime)
    case end_time_c => Some(endTime)
    case location_c => Some(location)
    case capacity_c => Some(capacity)
    case organizer_id_c => Some(organizerId)
    case image_url_c => Some(imageUrl)
    case is_featured_c => Some(isFeatured)
    case _ => None
  }

  /** The columns a field is written to: the title goes to both `Name` and
      `title_c`, every other field to one column of its own. */
  function Columns(f: Field): (cs: set<Column>)
    ensures forall c :: c in cs <==> FieldOf(c) == Some(f)
    ensures f != title ==> |cs| == 1
  {
    match f
    case title => {Name, title_c}
    case description => {description_c}
    case category => {category_c}
    case date => {date_c}
    case startTime => {start_time_c}
    case endTime => {end_time_c}
    case location => {location_c}
    case capacity => {capacity_c}
    case organizerId => {organizer_id_c}
    case imageUrl => {image_url_c}
    case isFeatured => {is_featured_c}
  }

  /** The single column of a field other than the title. */
  function ColumnOf(f: Field): (c: Column)
    requires f != title
    ensures FieldOf(c) == Some(f)
  {
    match f
    case description => description_c
    case category => category_c
    case date => date_c
    case startTime => start_time_c
    case endTime => end_time_c
    case location => location_c
    case capacity => capacity_c
    case organizerId => organizer_id_c
    case imageUrl => image_url_c
    case isFeatured => is_featured_c
  }

  /** What the UI shows for a field whose stored value is falsy. */
  function Default(f: Field): (d: Value)
    ensures !Truthy(d) && d != Undefined
  {
    match f
    case capacity => Num(0)
    case isFeatured => Bool(false)
    case _ => Empty
  }

  /** The UI attribute of an event that corresponds to an input field. */
  function Shown(e: Event, f: Field): Value {
    match f
    case title => e.title
    case description => e.description
    case category => e.category
    case date => e.date
    case startTime => e.startTime
    case endTime => e.endTime
    case location => e.location
    case capacity => e.capacity
    case organizerId => e.organizerId
    case imageUrl => e.imageUrl
    case isFeatured => e.isFeatured
  }

  /** What the UI shows for a field of a stored event: its column when
      that is truthy, else the field's default; for the title, `title_c`,
      else `Name`, else the empty string. */
  function ShownFrom(row: Row, f: Field): (v: Value)
    ensures f != title && Truthy(At(row, ColumnOf(f))) ==> v == At(row, ColumnOf(f))
    ensures f != title && !Truthy(At(row, ColumnOf(f))) ==> v == Default(f)
    ensures Truthy(v) || v == Default(f)
  {
    if f == title then Or(Or(row.title_c, row.Name), Empty) else Or(At(row, ColumnOf(f)), Default(f))
  }

  /** A stored event as the UI sees it. */
  function ToEvent(row: Row): (e: Event)
    ensures e.id == row.Id && e.createdAt == row.CreatedOn && e.updatedAt == row.ModifiedOn
    ensures row.capacity_c.Num? ==> e.capacity == row.capacity_c
    ensures Truthy(row.title_c) ==> e.title == row.title_c
    ensures !Truthy(row.title_c) && Truthy(row.Name) ==> e.title == row.Name
    ensures !Truthy(row.title_c) && !Truthy(row.Name) ==> e.title == Empty
  {
    Event(
      id := row.Id,
      title := ShownFrom(row, title),
      description := ShownFrom(row, description),
      category := ShownFrom(row, category),
      date := ShownFrom(row, date),
      startTime := ShownFrom(row, startTime),
      endTime := ShownFrom(row, endTime),
      location := ShownFrom(row, location),
      capacity := ShownFrom(row, capacity),
      organizerId := ShownFrom(row, organizerId),
      imageUrl := ShownFrom(row, imageUrl),
      isFeatured := ShownFrom(row, isFeatured),
      createdAt := row.CreatedOn,
      updatedAt := row.ModifiedOn)
  }

  /** The value a create stores for an input field: the capacity parsed as
      an integer (0 when it does not parse), any other field its input or,
      when the input is falsy, the default. Never `undefined`. */
  function Stored(f: Field, v: Value): (r: Value)
    ensures f == capacity ==> r == ParseIntOrZero(v)
    ensures f != capacity && Truthy(v) ==> r == v
    ensures f != capacity && !Truthy(v) ==> r == Default(f)
    ensures r != Undefined
  {
    if f == capacity then ParseIntOrZero(v) else Or(v, Default(f))
  }

  /** The record `create` sends (`CreateWrites` states its columns). */
  function CreateRecord(data: EventData): Row
  {
    Row(
      Id := Undefined,
      Name := Stored(title, data.title),
      title_c := Stored(title, data.title),
      description_c := Stored(description, data.description),
      category_c := Stored(category, data.category),
      date_c := Stored(date, data.date),
      start_time_c := Stored(startTime, data.startTime),
      end_time_c := Stored(endTime, data.endTime),
      location_c := Stored(location, data.location),
      capacity_c := Stored(capacity, data.capacity),
      organizer_id_c := Stored(organizerId, data.organizerId),
      image_url_c := Stored(imageUrl, data.imageUrl),
      is_featured_c := Stored(isFeatured, data.isFeatured),
      CreatedOn := Undefined,
      ModifiedOn := Undefined)
  }

  /** The value an update writes for a field it was given: the capacity
      parsed (0 when it does not parse), anything else as given. */
  function Assigned(f: Field, v: Value): (r: Value)
    ensures v != Undefined ==> r != Undefined
  {
    if f == capacity then ParseIntOrZero(v) else v
  }

  /** Whether an update with input `data` writes column `c`. */
  predicate Writes(data: EventData, c: Column) {
    FieldOf(c).Some? && Given(data, FieldOf(c).value) != Undefined
  }

  /** The record `update` sends (`UpdateWrites` states its columns). */
  function UpdateRecord(id: Value, data: EventData): Row
  {
    Blank.(
      Id := id,
      Name := IfGiven(data.title, data.title, Undefined),
      title_c := IfGiven(data.title, data.title, Undefined),
      description_c := IfGiven(data.description, data.description, Undefined),
      category_c := IfGiven(data.category, data.category, Undefined),
      date_c := IfGiven(data.date, data.date, Undefined),
      start_time_c := IfGiven(data.startTime, data.startTime, Undefined),
      end_time_c := IfGiven(data.endTime, data.endTime, Undefined),
      location_c := IfGiven(data.location, data.location, Undefined),
      capacity_c := IfGiven(data.capacity, ParseIntOrZero(data.capacity), Undefined),
      organizer_id_c := IfGiven(data.organizerId, data.organizerId, Undefined),
      image_url_c := IfGiven(data.imageUrl, data.imageUrl, Undefined),
      is_featured_c := IfGiven(data.isFeatured, data.isFeatured, Undefined))
  }

  /** `update`'s record, built as the service builds it: start from `Id`
      and add the columns of each field that is not `undefined`. */
  method BuildUpdate(id: Value, data: EventData) returns (u: Row)
    ensures u == UpdateRecord(id, data)
  {
    u := Blank.(Id := id);
    u := u.(Name := IfGiven(data.title, data.title, u.Name));
    u := u.(title_c := IfGiven(data.title, data.title, u.title_c));
    u := u.(description_c := IfGiven(data.description, data.description, u.description_c));
    u := u.(category_c := IfGiven(data.category, data.category, u.category_c));
    u := u.(date_c := IfGiven(data.date, data.date, u.date_c));
    u := u.(start_time_c := IfGiven(data.startTime, data.startTime, u.start_time_c));
    u := u.(end_time_c := IfGiven(data.endTime, data.endTime, u.end_time_c));
    u := u.(location_c := IfGiven(data.location, data.location, u.location_c));
    u := u.(capacity_c := IfGiven(data.capacity, ParseIntOrZero(data.capacity), u.capacity_c));
    u := u.(organizer_id_c := IfGiven(data.organizerId, data.organizerId, u.organizer_id_c));
    u := u.(image_url_c := IfGiven(data.imageUrl, data.imageUrl, u.image_url_c));
    u := u.(is_featured_c := IfGiven(data.isFeatured, data.isFeatured, u.is_featured_c));
  }

  /** The stored record after the store applies an update record to it:
      the store's own `Id`, `CreatedOn` and `ModifiedOn` are kept, and
      `Applied` states the other columns. */
  function Apply(row: Row, u: Row): Row {
    row.(
      Name := IfGiven(u.Name, u.Name, row.Name),
      title_c := IfGiven(u.title_c, u.title_c, row.title_c),
      description_c := IfGiven(u.description_c, u.description_c, row.description_c),
      category_c := IfGiven(u.category_c, u.category_c, row.category_c),
      date_c := IfGiven(u.date_c, u.date_c, row.date_c),
      start_time_c := IfGiven(u.start_time_c, u.start_time_c, row.start_time_c),
      end_time_c := IfGiven(u.end_time_c, u.end_time_c, row.end_time_c),
      location_c := IfGiven(u.location_c, u.location_c, row.location_c),
      capacity_c := IfGiven(u.capacity_c, u.capacity_c, row.capacity_c),
      organizer_id_c := IfGiven(u.organizer_id_c, u.organizer_id_c, row.organizer_id_c),
      image_url_c := IfGiven(u.image_url_c, u.image_url_c, row.image_url_c),
      is_featured_c := IfGiven(u.is_featured_c, u.is_featured_c, row.is_featured_c))
  }

  /** `getAll`: every fetched record as the UI sees it, or the response's
      failure message. */
  function GetAll(call: Call<FetchResponse<Row>>): (r: Result<seq<Event>>)
    ensures r.Ok? <==> Fetched(call).Ok?
    ensures r.Err? ==> r == Err(Fetched(call).error)
    ensures r.Ok? ==> |r.value| == |Fetched(call).value|
    ensures r.Ok? ==> forall i :: 0 <= i < |r.value| ==> r.value[i] == ToEvent(Fetched(call).value[i])
  {
    match Fetched(call)
    case Err(e) => Err(e)
    case Ok(rows) => Ok(seq(|rows|, i requires 0 <= i < |rows| => ToEvent(rows[i])))
  }

  /** `getById`: fails with "Event not found" when the response reports
      failure or carries no record. */
  function GetById(call: Call<RecordResponse<Row>>): (r: Result<Event>)
    ensures r.Ok? <==> call.Returned? && call.response.success && call.response.data.Some?
    ensures r.Ok? ==> r.value == ToEvent(call.response.data.value)
    ensures call.Returned? && r.Err? ==> r.error == "Event not found"
    ensures !call.Returned? ==> r == Err(CallError(call))
  {
    match call
    case NoClient => Err(NotInitialized)
    case Threw(e) => Err(e)
    case Returned(resp) =>
      if !resp.success || resp.data.None? then Err("Event not found") else Ok(ToEvent(resp.data.value))
  }

  /** The saved record of a create or update as the UI sees it; no result
      at all is the Error `noData`. */
  function SavedEvent(m: Result<Option<Row>>, noData: string): Result<Event> {
    match m
    case Err(e) => Err(e)
    case Ok(None) => Err(noData)
    case Ok(Some(row)) => Ok(ToEvent(row))
  }

  /** `create`: the saved event, or the reason it fails. */
  function Create(call: Call<MutationResponse<Row>>): (r: Result<Event>)
    ensures r.Ok? <==> FirstSucceeded(call)
    ensures r.Ok? ==> r.value == ToEvent(First(call).data)
    ensures NoResults(call) ==> r == Err("No data returned from create operation")
    ensures FirstFailed(call) ==> r == Err(MessageOr(First(call).message, "Failed to create event"))
    ensures call.Returned? && !call.response.success ==> r == Err(call.response.message)
  {
    SavedEvent(Mutated(call, "Failed to create event"), "No data returned from create operation")
  }

  /** `update`: the saved event, or the reason it fails. */
  function Update(call: Call<MutationResponse<Row>>): (r: Result<Event>)
    ensures r.Ok? <==> FirstSucceeded(call)
    ensures r.Ok? ==> r.value == ToEvent(First(call).data)
    ensures NoResults(call) ==> r == Err("No data returned from update operation")
    ensures FirstFailed(call) ==> r == Err(MessageOr(First(call).message, "Failed to update event"))
    ensures call.Returned? && !call.response.success ==> r == Err(call.response.message)
  {
    SavedEvent(Mutated(call, "Failed to update event"), "No data returned from update operation")
  }

  /** `delete`: succeeds unless the response or its first result reports
      failure; a response without results counts as success. */
  function Delete(call: Call<MutationResponse<Row>>): (r: Result<()>)
    ensures r.Ok? <==> Answered(call) && !FirstFailed(call)
    ensures FirstFailed(call) ==> r == Err(MessageOr(First(call).message, "Failed to delete event"))
    ensures call.Returned? && !call.response.success ==> r == Err(call.response.message)
  {
    Deleted(call, "Failed to delete event")
  }

  /** The event the UI sees shows, for every field, what `ShownFrom`
      says of that field. */
  lemma ShownValues(row: Row)
    ensures forall f :: Shown(ToEvent(row), f) == ShownFrom(row, f)
  {
    var e := ToEvent(row);
    forall f ensures Shown(e, f) == ShownFrom(row, f) {
      match f
      case title =>
      case description =>
      case category =>
      case date =>
      case startTime =>
      case endTime =>
      case location =>
      case capacity =>
      case organizerId =>
      case imageUrl =>
      case isFeatured =>
    }
  }

  /** A create writes every column an input field maps to, each with the
      stored value of its field, never `undefined`; it leaves `Id`,
      `CreatedOn` and `ModifiedOn` to the store. */
  lemma CreateWrites(data: EventData)
    ensures CreateRecord(data).Id == Undefined
    ensures CreateRecord(data).CreatedOn == Undefined && CreateRecord(data).ModifiedOn == Undefined
    ensures forall c :: FieldOf(c).Some? ==>
      At(CreateRecord(data), c) == Stored(FieldOf(c).value, Given(data, FieldOf(c).value)) != Undefined
  {
    var r := CreateRecord(data);
    forall c | FieldOf(c).Some?
      ensures At(r, c) == Stored(FieldOf(c).value, Given(data, FieldOf(c).value))
    {
      match c
      case Name =>
      case title_c =>
      case description_c =>
      case category_c =>
      case date_c =>
      case start_time_c =>
      case end_time_c =>
      case location_c =>
      case capacity_c =>
      case organizer_id_c =>
      case image_url_c =>
      case is_featured_c =>
    }
  }

  /** An update record carries `Id` and the columns of exactly those input
      fields that are not `undefined` (`null` and `""` included), each with
      the value assigned for its field; the title goes to both `Name` and
      `title_c`; every other column is absent. */
  lemma UpdateWrites(id: Value, data: EventData)
    ensures UpdateRecord(id, data).Id == id
    ensures forall c :: Writes(data, c) ==>
      At(UpdateRecord(id, data), c) == Assigned(FieldOf(c).value, Given(data, FieldOf(c).value)) != Undefined
    ensures forall c :: c != Id && !Writes(data, c) ==> At(UpdateRecord(id, data), c) == Undefined
  {
    var u := UpdateRecord(id, data);
    forall c | c != Id
      ensures Writes(data, c) ==> At(u, c) == Assigned(FieldOf(c).value, Given(data, FieldOf(c).value))
      ensures !Writes(data, c) ==> At(u, c) == Undefined
    {
      match c
      case Name =>
      case title_c =>
      case description_c =>
      case category_c =>
      case date_c =>
      case start_time_c =>
      case end_time_c =>
      case location_c =>
      case capacity_c =>
      case organizer_id_c =>
      case image_url_c =>
      case is_featured_c =>
      case CreatedOn =>
      case ModifiedOn =>
    }
  }

  /** The store overwrites exactly the columns an update record carries. */
  lemma Applied(row: Row, u: Row)
    ensures forall c :: FieldOf(c).Some? && At(u, c) != Undefined ==> At(Apply(row, u), c) == At(u, c)
    ensures forall c :: FieldOf(c).Some? && At(u, c) == Undefined ==> At(Apply(row, u), c) == At(row, c)
  {
    forall c | FieldOf(c).Some?
      ensures At(Apply(row, u), c) == IfGiven(At(u, c), At(u, c), At(row, c))
    {
      match c
      case Name =>
      case title_c =>
      case description_c =>
      case category_c =>
      case date_c =>
      case start_time_c =>
      case end_time_c =>
      case location_c =>
      case capacity_c =>
      case organizer_id_c =>
      case image_url_c =>
      case is_featured_c =>
    }
  }

  /** A create always stores a number as the capacity. */
  lemma CreateStoresNumericCapacity(data: EventData)
    ensures CreateRecord(data).capacity_c.Num?
  {
  }

  /** An update stores a number as the capacity or leaves the column
      alone, so a numeric capacity stays numeric. */
  lemma UpdateKeepsNumericCapacity(row: Row, id: Value, data: EventData)
    requires row.capacity_c.Num?
    ensures Apply(row, UpdateRecord(id, data)).capacity_c.Num?
  {
  }

  /** Reading back a created event: a saved record holding in every
      writable column what the create stored (as `CreateWrites` states)
      shows for every field exactly the stored value: a truthy input
      unchanged, a falsy one as the default, the capacity as its parsed
      integer. */
  lemma CreateReadBack(data: EventData, saved: Row)
    requires forall c :: FieldOf(c).Some? ==> At(saved, c) == Stored(FieldOf(c).value, Given(data, FieldOf(c).value))
    ensures forall f :: ShownFrom(saved, f) == Stored(f, Given(data, f))
    ensures forall f :: f != capacity && Truthy(Given(data, f)) ==> ShownFrom(saved, f) == Given(data, f)
  {
    forall f ensures ShownFrom(saved, f) == Stored(f, Given(data, f)) {
      if f == title {
        assert At(saved, title_c) == Stored(title, data.title);
        assert At(saved, Name) == Stored(title, data.title);
      } else {
        assert FieldOf(ColumnOf(f)) == Some(f);
      }
    }
  }

  /** The stored record after an update: a column whose field the update
      was given holds the value assigned for it, every other writable
      column what it held before. */
  lemma UpdateApplied(row: Row, id: Value, data: EventData)
    ensures forall c :: FieldOf(c).Some? ==>
      At(Apply(row, UpdateRecord(id, data)), c)
        == IfGiven(Given(data, FieldOf(c).value), Assigned(FieldOf(c).value, Given(data, FieldOf(c).value)), At(row, c))
  {
    UpdateWrites(id, data);
    Applied(row, UpdateRecord(id, data));
  }

  /** Reading back an updated event: a field the update was not given shows
      what it showed before; a field it was given shows the written value,
      or the default when that value is falsy. */
  lemma UpdateReadBack(row: Row, after: Row, data: EventData)
    requires forall c :: FieldOf(c).Some? ==>
      At(after, c) == IfGiven(Given(data, FieldOf(c).value), Assigned(FieldOf(c).value, Given(data, FieldOf(c).value)), At(row, c))
    ensures forall f :: Given(data, f) == Undefined ==> ShownFrom(after, f) == ShownFrom(row, f)
    ensures forall f :: Given(data, f) != Undefined ==> ShownFrom(after, f) == Or(Assigned(f, Given(data, f)), Default(f))
  {
    forall f
      ensures Given(data, f) == Undefined ==> ShownFrom(after, f) == ShownFrom(row, f)
      ensures Given(data, f) != Undefined ==> ShownFrom(after, f) == Or(Assigned(f, Given(data, f)), Default(f))
    {
      if f == title {
        assert At(after, title_c) == IfGiven(data.title, data.title, row.title_c);
        assert At(after, Name) == IfGiven(data.title, data.title, row.Name);
      } else {
        assert FieldOf(ColumnOf(f)) == Some(f);
      }
    }
  }
}
