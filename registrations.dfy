/** The registration service: how a record of table `registration_c` is
    shown to the UI, the confirmed-or-waitlist decision a create makes, the
    waitlist position of a user, which columns a create or an update
    writes, when an update announces a promotion, and when each operation
    fails. */
module Registrations {
  import opened Js
  import opened Sdk
  import Events

  /** The columns of table `registration_c`, named as in the database. */
  datatype Column =
    | Id | Name | event_id_c | user_id_c | user_email_c | user_name_c | status_c
    | registered_at_c | CreatedOn | ModifiedOn

  /** A record of table `registration_c`, sent or received; a column the
      record lacks holds `undefined`. */
  datatype Row = Row(
    Id: Value, Name: Value, event_id_c: Value, user_id_c: Value, user_email_c: Value,
    user_name_c: Value, status_c: Value, registered_at_c: Value, CreatedOn: Value,
    ModifiedOn: Value)

  /** The record with no column at all. */
  const Blank := Row(Undefined, Undefined, Undefined, Undefined, Undefined,
    Undefined, Undefined, Undefined, Undefined, Undefined)

  /** `record[c]`. */
  function At(r: Row, c: Column): Value {
    match c
    case Id => r.Id
    case Name => r.Name
    case event_id_c => r.event_id_c
    case user_id_c => r.user_id_c
    case user_email_c => r.user_email_c
    case user_name_c => r.user_name_c
    case status_c => r.status_c
    case registered_at_c => r.registered_at_c
    case CreatedOn => r.CreatedOn
    case ModifiedOn => r.ModifiedOn
  }

  /** The fields of the UI's registration object that a create or an
      update takes. */
  datatype Field = eventId | userId | userEmail | userName | status | registeredAt

  /** The UI's input object; a field it lacks holds `undefined`. A create
      ignores `status` and `registeredAt`. */
  datatype RegistrationData = RegistrationData(
    eventId: Value, userId: Value, userEmail: Value, userName: Value,
    status: Value, registeredAt: Value)

  /** `registrationData[f]`. */
  function Given(d: RegistrationData, f: Field): Value {
    match f
    case eventId => d.eventId
    case userId => d.userId
    case userEmail => d.userEmail
    case userName => d.userName
    case status => d.status
    case registeredAt => d.registeredAt
  }

  /** A registration as the UI sees it. */
  datatype Registration = Registration(
    id: Value, eventId: Value, userId: Value, userEmail: Value, userName: Value,
    status: Value, registeredAt: Value, createdAt: Value, updatedAt: Value)

  const Confirmed := Str("confirmed")
  const Waitlist := Str("waitlist")

  /** `v?.Id || v`: the `Id` of a lookup object (unless that `Id` is 0),
      any other value as it is. */
  function EventIdOf(v: Value): (r: Value)
    ensures !v.Ref? ==> r == v
    ensures v.Ref? && v.id != 0 ==> r == Num(v.id)
    ensures v.Ref? && v.id == 0 ==> r == v
  {
    if v.Ref? then Or(Num(v.id), v) else v
  }

  /** A stored registration as the UI sees it, `defaultStatus` standing in
      for a falsy `status_c`. The user's name is taken from `user_name_c`,
      else from `Name`, else it is empty; the registration time falls back
      to the creation stamp. */
  function ToRegistration(row: Row, defaultStatus: Value): (v: Registration)
    ensures v.id == row.Id && v.createdAt == row.CreatedOn && v.updatedAt == row.ModifiedOn
    ensures v.eventId == EventIdOf(row.event_id_c)
    ensures Truthy(row.user_id_c) ==> v.userId == row.user_id_c
    ensures !Truthy(row.user_id_c) ==> v.userId == Empty
    ensures Truthy(row.user_email_c) ==> v.userEmail == row.user_email_c
    ensures !Truthy(row.user_email_c) ==> v.userEmail == Empty
    ensures Truthy(row.user_name_c) ==> v.userName == row.user_name_c
    ensures !Truthy(row.user_name_c) && Truthy(row.Name) ==> v.userName == row.Name
    ensures !Truthy(row.user_name_c) && !Truthy(row.Name) ==> v.userName == Empty
    ensures Truthy(row.status_c) ==> v.status == row.status_c
    ensures !Truthy(row.status_c) ==> v.status == defaultStatus
    ensures Truthy(row.registered_at_c) ==> v.registeredAt == row.registered_at_c
    ensures !Truthy(row.registered_at_c) ==> v.registeredAt == row.CreatedOn
  {
    Registration(
      id := row.Id,
      eventId := EventIdOf(row.event_id_c),
      userId := Or(row.user_id_c, Empty),
      userEmail := Or(row.user_email_c, Empty),
      userName := Or(Or(row.user_name_c, row.Name), Empty),
      status := Or(row.status_c, defaultStatus),
      registeredAt := Or(row.registered_at_c, row.CreatedOn),
      createdAt := row.CreatedOn,
      updatedAt := row.ModifiedOn)
  }

  /** The mapping every read uses: a missing status reads as confirmed. */
  function ToView(row: Row): (v: Registration)
    ensures Truthy(row.status_c) ==> v.status == row.status_c
    ensures !Truthy(row.status_c) ==> v.status == Confirmed
    ensures Truthy(v.status)
  {
    ToRegistration(row, Confirmed)
  }

  /** `getRegistrationCountForEvent` and `getWaitlistCountForEvent`: the
      number of records the query returns, and 0 whenever the query fails
      in any way (no client, an exception, an unsuccessful response). */
  function Count(call: Call<FetchResponse<Row>>): (n: nat)
    ensures Fetched(call).Ok? ==> n == |Fetched(call).value|
    ensures Fetched(call).Err? ==> n == 0
  {
    match Fetched(call)
    case Ok(rows) => |rows|
    case Err(_) => 0
  }

  /** The status a create decides: `confirmedCount >= capacity` gives
      waitlist, anything else confirmed. */
  function DecideStatus(confirmedCount: nat, capacity: Value): (s: Value)
    ensures s == Waitlist <==> AtLeast(confirmedCount, capacity)
    ensures s == Confirmed <==> !AtLeast(confirmedCount, capacity)
    ensures capacity.Num? ==> (s == Confirmed <==> confirmedCount < capacity.n)
    ensures capacity.Num? && capacity.n <= 0 ==> s == Waitlist
    ensures RelationalNumber(capacity).None? ==> s == Confirmed
    ensures Truthy(s)
  {
    if AtLeast(confirmedCount, capacity) then Waitlist else Confirmed
  }

  /** The email template of a create's notification. */
  function EmailTemplate(s: Value): (t: string)
    ensures t == "registration_confirmation" <==> StrictEquals(s, Confirmed)
    ensures t == "waitlist_confirmation" <==> !StrictEquals(s, Confirmed)
  {
    if StrictEquals(s, Confirmed) then "registration_confirmation" else "waitlist_confirmation"
  }

  /** `rows.find(reg => reg.user_id_c === userId)`, by the index of the
      entry it returns: the first entry whose user is `userId`. */
  function Find(rows: seq<Row>, user: Value): (r: Option<nat>)
    ensures r.Some? ==> r.value < |rows| && StrictEquals(rows[r.value].user_id_c, user)
    ensures r.Some? ==> forall j :: 0 <= j < r.value ==> !StrictEquals(rows[j].user_id_c, user)
    ensures r.None? <==> forall j :: 0 <= j < |rows| ==> !StrictEquals(rows[j].user_id_c, user)
  {
    if rows == [] then None
    else if StrictEquals(rows[0].user_id_c, user) then Some(0)
    else
      match Find(rows[1..], user)
      case None => None
      case Some(i) => Some(i + 1)
  }

  /** `rows.indexOf(x)`: the first index holding `x`. */
  function IndexOf(rows: seq<Row>, x: Row): (r: Option<nat>)
    ensures r.Some? ==> r.value < |rows| && rows[r.value] == x
    ensures r.Some? ==> forall j :: 0 <= j < r.value ==> rows[j] != x
    ensures r.None? <==> x !in rows
  {
    if rows == [] then None
    else if rows[0] == x then Some(0)
    else
      match IndexOf(rows[1..], x)
      case None => None
      case Some(i) => Some(i + 1)
  }

  /** The waitlist position of `user` in a waitlist ordered by registration
      time: the 1-based index of the first entry of that user, or none when
      the user is not on the list (the empty list included). */
  function WaitlistPosition(rows: seq<Row>, user: Value): (p: Option<nat>)
    ensures p.Some? ==> 1 <= p.value <= |rows| && StrictEquals(rows[p.value - 1].user_id_c, user)
    ensures p.Some? ==> forall j :: 0 <= j < p.value - 1 ==> !StrictEquals(rows[j].user_id_c, user)
    ensures p.None? <==> forall j :: 0 <= j < |rows| ==> !StrictEquals(rows[j].user_id_c, user)
  {
    match Find(rows, user)
    case None => None
    case Some(i) =>
      var k := IndexOf(rows, rows[i]);
      assert k.Some? && k.value == i;
      Some(k.value + 1)
  }

  /** `getWaitlistPositionForUser`: the position in the fetched waitlist,
      and none whenever the query fails. */
  function WaitlistPositionForUser(call: Call<FetchResponse<Row>>, user: Value): (p: Option<nat>)
    ensures Fetched(call).Ok? ==> p == WaitlistPosition(Fetched(call).value, user)
    ensures Fetched(call).Err? ==> p == None
  {
    match Fetched(call)
    case Ok(rows) => WaitlistPosition(rows, user)
    case Err(_) => None
  }

  /** Every fetched record as the UI sees it. */
  function Views(rows: seq<Row>): (vs: seq<Registration>)
    ensures |vs| == |rows|
    ensures forall i :: 0 <= i < |rows| ==> vs[i] == ToView(rows[i])
  {
    seq(|rows|, i requires 0 <= i < |rows| => ToView(rows[i]))
  }

  /** `getAll`: the fetched records, or the reason the query failed. */
  function GetAll(call: Call<FetchResponse<Row>>): (r: Result<seq<Registration>>)
    ensures r.Ok? <==> Fetched(call).Ok?
    ensures r.Ok? ==> r.value == Views(Fetched(call).value)
    ensures r.Err? ==> r.error == Fetched(call).error
  {
    match Fetched(call)
    case Ok(rows) => Ok(Views(rows))
    case Err(e) => Err(e)
  }

  /** `getByEventId` and `getByUserId`: the fetched records, and the empty
      list whenever the query fails. */
  function ListOrEmpty(call: Call<FetchResponse<Row>>): (vs: seq<Registration>)
    ensures Fetched(call).Ok? ==> vs == Views(Fetched(call).value)
    ensures Fetched(call).Err? ==> vs == []
  {
    match Fetched(call)
    case Ok(rows) => Views(rows)
    case Err(_) => []
  }

  /** `getById`: fails with "Registration not found" when the response
      reports failure or carries no record. */
  function GetById(call: Call<RecordResponse<Row>>): (r: Result<Registration>)
    ensures r.Ok? <==> call.Returned? && call.response.success && call.response.data.Some?
    ensures r.Ok? ==> r.value == ToView(call.response.data.value)
    ensures call.Returned? && r.Err? ==> r.error == "Registration not found"
    ensures !call.Returned? ==> r == Err(CallError(call))
  {
    match call
    case NoClient => Err(NotInitialized)
    case Threw(e) => Err(e)
    case Returned(resp) =>
      if !resp.success || resp.data.None? then Err("Registration not found") else Ok(ToView(resp.data.value))
  }

  /** `getUserRegistrationForEvent`: the first record the query returns;
      none when it returns nothing or fails. */
  function UserRegistrationForEvent(call: Call<FetchResponse<Row>>): (r: Option<Registration>)
    ensures r.Some? <==> Fetched(call).Ok? && |Fetched(call).value| > 0
    ensures r.Some? ==> r.value == ToView(Fetched(call).value[0])
  {
    match Fetched(call)
    case Ok(rows) => if |rows| == 0 then None else Some(ToView(rows[0]))
    case Err(_) => None
  }

  /** The record a create sends, for the decided status and the current
      time `now`. */
  function CreateRecord(data: RegistrationData, decided: Value, now: Value): Row {
    Blank.(
      Name := Or(Or(data.userName, data.userEmail), Str("Registration")),
      event_id_c := ParseIntValue(data.eventId),
      user_id_c := Or(data.userId, Empty),
      user_email_c := Or(data.userEmail, Empty),
      user_name_c := Or(data.userName, Empty),
      status_c := decided,
      registered_at_c := now)
  }

  /** A notification the service sends: its template and its recipient. */
  datatype Notice = Notice(template: string, to: Value)

  /** The first half of `create`: look the event up, count its confirmed
      registrations, decide the status and build the record. A failed event
      lookup aborts the create with its error; a failed count reads as 0. */
  function CreateRequest(event: Result<Events.Event>, count: Call<FetchResponse<Row>>,
                         data: RegistrationData, now: Value): (r: Result<(Value, Row)>)
    ensures event.Err? ==> r == Err(event.error)
    ensures event.Ok? ==> r.Ok? && r.value.0 == DecideStatus(Count(count), event.value.capacity)
    ensures event.Ok? ==> r.value.1 == CreateRecord(data, r.value.0, now)
  {
    match event
    case Err(e) => Err(e)
    case Ok(ev) =>
      var decided := DecideStatus(Count(count), ev.capacity);
      Ok((decided, CreateRecord(data, decided, now)))
  }

  /** The second half of `create`: the saved registration, shown with the
      decided status when its own is falsy, and the notification to send
      when the input carries an email. */
  function CreateOutcome(data: RegistrationData, decided: Value, call: Call<MutationResponse<Row>>)
    : (r: Result<(Registration, Option<Notice>)>)
    ensures r.Ok? <==> FirstSucceeded(call)
    ensures r.Ok? ==> r.value.0 == ToRegistration(First(call).data, decided)
    ensures r.Ok? ==> (r.value.1.Some? <==> Truthy(data.userEmail))
    ensures r.Ok? && r.value.1.Some? ==> r.value.1.value == Notice(EmailTemplate(decided), data.userEmail)
    ensures NoResults(call) ==> r == Err("No data returned from create operation")
    ensures FirstFailed(call) ==> r == Err(MessageOr(First(call).message, "Failed to create registration"))
    ensures call.Returned? && !call.response.success ==> r == Err(call.response.message)
  {
    match Mutated(call, "Failed to create registration")
    case Err(e) => Err(e)
    case Ok(None) => Err("No data returned from create operation")
    case Ok(Some(saved)) =>
      var notice := if Truthy(data.userEmail) then Some(Notice(EmailTemplate(decided), data.userEmail)) else None;
      Ok((ToRegistration(saved, decided), notice))
  }

  /** `create` as a whole. */
  function Create(event: Result<Events.Event>, count: Call<FetchResponse<Row>>,
                  data: RegistrationData, now: Value, call: Call<MutationResponse<Row>>)
    : (r: Result<(Registration, Option<Notice>)>)
    ensures call.NoClient? ==> r == Err(NotInitialized)
    ensures !call.NoClient? && event.Err? ==> r == Err(event.error)
    ensures !call.NoClient? && event.Ok? ==> r == CreateOutcome(data, DecideStatus(Count(count), event.value.capacity), call)
  {
    if call.NoClient? then Err(NotInitialized)
    else
      match CreateRequest(event, count, data, now)
      case Err(e) => Err(e)
      case Ok((decided, _)) => CreateOutcome(data, decided, call)
  }

  /** The input field a column is written from by an update, if any. */
  function FieldOf(c: Column): Option<Field> {
    match c
    case Name => Some(userName)
    case event_id_c => Some(eventId)
    case user_id_c => Some(userId)
    case user_email_c => Some(userEmail)
    case user_name_c => Some(userName)
    case status_c => Some(status)
    case registered_at_c => Some(registeredAt)
    case _ => None
  }

  /** The value an update writes for a field it was given: the event id
      parsed (NaN when it does not parse), anything else as given. */
  function Assigned(f: Field, v: Value): (r: Value)
    ensures v != Undefined ==> r != Undefined
  {
    if f == eventId then ParseIntValue(v) else v
  }

  /** Whether an update with input `data` writes column `c`. */
  predicate Writes(data: RegistrationData, c: Column) {
    FieldOf(c).Some? && Given(data, FieldOf(c).value) != Undefined
  }

  /** The record `update` sends (`UpdateWrites` states its columns). */
  function UpdateRecord(id: Value, data: RegistrationData): Row {
    Blank.(
      Id := id,
      Name := IfGiven(data.userName, data.userName, Undefined),
      event_id_c := IfGiven(data.eventId, ParseIntValue(data.eventId), Undefined),
      user_id_c := IfGiven(data.userId, data.userId, Undefined),
      user_email_c := IfGiven(data.userEmail, data.userEmail, Undefined),
      user_name_c := IfGiven(data.userName, data.userName, Undefined),
      status_c := IfGiven(data.status, data.status, Undefined),
      registered_at_c := IfGiven(data.registeredAt, data.registeredAt, Undefined))
  }

  /** `update`'s record, built as the service builds it: start from `Id`
      and add the columns of each field that is not `undefined`. */
  method BuildUpdate(id: Value, data: RegistrationData) returns (u: Row)
    ensures u == UpdateRecord(id, data)
  {
    u := Blank.(Id := id);
    u := u.(event_id_c := IfGiven(data.eventId, ParseIntValue(data.eventId), u.event_id_c));
    u := u.(user_id_c := IfGiven(data.userId, data.userId, u.user_id_c));
    u := u.(user_email_c := IfGiven(data.userEmail, data.userEmail, u.user_email_c));
    u := u.(user_name_c := IfGiven(data.userName, data.userName, u.user_name_c));
    u := u.(Name := IfGiven(data.userName, data.userName, u.Name));
    u := u.(status_c := IfGiven(data.status, data.status, u.status_c));
    u := u.(registered_at_c := IfGiven(data.registeredAt, data.registeredAt, u.registered_at_c));
  }

  /** Whether an update announces a promotion: the registration was on the
      waitlist, the update asks for `confirmed`, and the saved record has an
      email address. */
  predicate ShouldNotifyPromotion(current: Registration, data: RegistrationData, saved: Row): (r: bool)
    ensures r <==> current.status == Waitlist && data.status == Confirmed && Truthy(saved.user_email_c)
    ensures r ==> saved.user_email_c != Empty && saved.user_email_c != Undefined
  {
    StrictEquals(current.status, Waitlist) && StrictEquals(data.status, Confirmed) && Truthy(saved.user_email_c)
  }

  /** `update`: reads the current registration first (its failure aborts
      the update), then saves; the result is the saved registration and the
      promotion notice, if one is due. */
  function Update(current: Call<RecordResponse<Row>>, data: RegistrationData, call: Call<MutationResponse<Row>>)
    : (r: Result<(Registration, Option<Notice>)>)
    ensures GetById(current).Err? ==> r == Err(GetById(current).error)
    ensures GetById(current).Ok? ==> (r.Ok? <==> FirstSucceeded(call))
    ensures r.Ok? ==> r.value.0 == ToView(First(call).data)
    ensures r.Ok? ==> (r.value.1.Some? <==> ShouldNotifyPromotion(GetById(current).value, data, First(call).data))
    ensures r.Ok? && r.value.1.Some? ==> r.value.1.value == Notice("registration_confirmation", First(call).data.user_email_c)
    ensures GetById(current).Ok? && NoResults(call) ==> r == Err("No data returned from update operation")
    ensures GetById(current).Ok? && FirstFailed(call) ==> r == Err(MessageOr(First(call).message, "Failed to update registration"))
    ensures GetById(current).Ok? && call.Returned? && !call.response.success ==> r == Err(call.response.message)
  {
    match GetById(current)
    case Err(e) => Err(e)
    case Ok(cur) =>
      match Mutated(call, "Failed to update registration")
      case Err(e) => Err(e)
      case Ok(None) => Err("No data returned from update operation")
      case Ok(Some(saved)) =>
        var notice := if ShouldNotifyPromotion(cur, data, saved)
          then Some(Notice("registration_confirmation", saved.user_email_c)) else None;
        Ok((ToView(saved), notice))
  }

  /** `delete`: succeeds unless the response or its first result reports
      failure; a response without results counts as success. */
  function Delete(call: Call<MutationResponse<Row>>): (r: Result<()>)
    ensures r.Ok? <==> Answered(call) && !FirstFailed(call)
    ensures FirstFailed(call) ==> r == Err(MessageOr(First(call).message, "Failed to delete registration"))
    ensures call.Returned? && !call.response.success ==> r == Err(call.response.message)
  {
    Deleted(call, "Failed to delete registration")
  }

  /** The stored record after the store applies an update record to it:
      every column the update carries replaces the stored one; the store's
      own `Id`, `CreatedOn` and `ModifiedOn` are kept. */
  function Apply(row: Row, u: Row): Row {
    row.(
      Name := IfGiven(u.Name, u.Name, row.Name),
      event_id_c := IfGiven(u.event_id_c, u.event_id_c, row.event_id_c),
      user_id_c := IfGiven(u.user_id_c, u.user_id_c, row.user_id_c),
      user_email_c := IfGiven(u.user_email_c, u.user_email_c, row.user_email_c),
      user_name_c := IfGiven(u.user_name_c, u.user_name_c, row.user_name_c),
      status_c := IfGiven(u.status_c, u.status_c, row.status_c),
      registered_at_c := IfGiven(u.registered_at_c, u.registered_at_c, row.registered_at_c))
  }

  // Properties

  /** The template follows the decided status: confirmation for a confirmed
      registration, waitlist notice otherwise. */
  lemma TemplateOfDecision(confirmedCount: nat, capacity: Value)
    ensures EmailTemplate(DecideStatus(confirmedCount, capacity)) == "registration_confirmation"
      <==> !AtLeast(confirmedCount, capacity)
  {
  }

  /** The capacity a create compares with comes from the event mapping,
      which shows every falsy stored capacity (`undefined`, NaN, `null`,
      `""`, `false`, 0) as 0: such an event waitlists everyone. Only a
      truthy stored capacity that `>=` cannot convert (a string like
      "abc", a lookup object) confirms everyone. */
  lemma StoredCapacityDecides(confirmedCount: nat, event: Events.Row)
    ensures !Truthy(event.capacity_c) ==> DecideStatus(confirmedCount, Events.ToEvent(event).capacity) == Waitlist
    ensures Truthy(event.capacity_c) && RelationalNumber(event.capacity_c).None?
      ==> DecideStatus(confirmedCount, Events.ToEvent(event).capacity) == Confirmed
  {
    Events.ShownValues(event);
    assert Events.Shown(Events.ToEvent(event), Events.capacity) == Events.ToEvent(event).capacity;
  }

  /** On a waitlist whose users are distinct, the user of the j-th entry
      (0-based) has position j + 1. */
  lemma DistinctUsersPosition(rows: seq<Row>, j: nat)
    requires j < |rows|
    requires forall i, k :: 0 <= i < k < |rows| ==> rows[i].user_id_c != rows[k].user_id_c
    requires rows[j].user_id_c != NaN && !rows[j].user_id_c.Ref?
    ensures WaitlistPosition(rows, rows[j].user_id_c) == Some(j + 1)
  {
    var p := WaitlistPosition(rows, rows[j].user_id_c);
    assert StrictEquals(rows[j].user_id_c, rows[j].user_id_c);
    assert p.Some?;
  }

  /** An update record carries `Id` and the columns of exactly those input
      fields that are not `undefined` (`null` and `""` included), each with
      the value assigned for its field; the user name goes to both
      `user_name_c` and `Name`; every other column is absent. */
  lemma UpdateWrites(id: Value, data: RegistrationData)
    ensures UpdateRecord(id, data).Id == id
    ensures forall c :: Writes(data, c) ==>
      At(UpdateRecord(id, data), c) == Assigned(FieldOf(c).value, Given(data, FieldOf(c).value)) != Undefined
    ensures forall c :: c != Id && !Writes(data, c) ==> At(UpdateRecord(id, data), c) == Undefined
  {
    var u := UpdateRecord(id, data);
    forall c | c != Id
      ensures Writes(data, c) ==> At(u, c) == Assigned(FieldOf(c).value, Given(data, FieldOf(c).value))
      ensures !Writes(data, c) ==> At(u, c) == Undefined
    {
      match c
      case Name =>
      case event_id_c =>
      case user_id_c =>
      case user_email_c =>
      case user_name_c =>
      case status_c =>
      case registered_at_c =>
      case CreatedOn =>
      case ModifiedOn =>
    }
  }

  /** The record a create sends: the name falls back from the user name
      to the email to "Registration"; the event id is parsed (NaN when it
      does not parse); the user's id, email and name fall back to `''`;
      the status is the decided one and the registration time is `now`.
      `Id` and the stamps are left to the store. */
  lemma CreateWrites(data: RegistrationData, decided: Value, now: Value)
    ensures CreateRecord(data, decided, now).Id == Undefined
    ensures CreateRecord(data, decided, now).CreatedOn == Undefined
    ensures CreateRecord(data, decided, now).ModifiedOn == Undefined
    ensures Truthy(data.userName) ==> CreateRecord(data, decided, now).Name == data.userName
    ensures !Truthy(data.userName) && Truthy(data.userEmail) ==> CreateRecord(data, decided, now).Name == data.userEmail
    ensures !Truthy(data.userName) && !Truthy(data.userEmail) ==> CreateRecord(data, decided, now).Name == Str("Registration")
    ensures ParseInt(data.eventId).Some? ==> CreateRecord(data, decided, now).event_id_c == Num(ParseInt(data.eventId).value)
    ensures ParseInt(data.eventId).None? ==> CreateRecord(data, decided, now).event_id_c == NaN
    ensures Truthy(data.userId) ==> CreateRecord(data, decided, now).user_id_c == data.userId
    ensures !Truthy(data.userId) ==> CreateRecord(data, decided, now).user_id_c == Empty
    ensures Truthy(data.userEmail) ==> CreateRecord(data, decided, now).user_email_c == data.userEmail
    ensures !Truthy(data.userEmail) ==> CreateRecord(data, decided, now).user_email_c == Empty
    ensures Truthy(data.userName) ==> CreateRecord(data, decided, now).user_name_c == data.userName
    ensures !Truthy(data.userName) ==> CreateRecord(data, decided, now).user_name_c == Empty
    ensures CreateRecord(data, decided, now).status_c == decided
    ensures CreateRecord(data, decided, now).registered_at_c == now
  {
  }

  /** A created record once the store has filled `Id` and the stamps. */
  function Saved(data: RegistrationData, decided: Value, now: Value, id: Value, created: Value, modified: Value): Row {
    CreateRecord(data, decided, now).(Id := id, CreatedOn := created, ModifiedOn := modified)
  }

  /** Reading back a created registration: it shows the store's id and
      stamps, the decided status, the parsed event id, the given user id
      and email (or `''`), a user name that is never empty (the given
      name, else the email, else "Registration"), and the time of the
      create, or the creation stamp when that time is falsy. */
  lemma CreateReadBack(data: RegistrationData, decided: Value, now: Value, id: Value, created: Value, modified: Value)
    requires Truthy(decided)
    ensures ToView(Saved(data, decided, now, id, created, modified)).id == id
    ensures ToView(Saved(data, decided, now, id, created, modified)).createdAt == created
    ensures ToView(Saved(data, decided, now, id, created, modified)).updatedAt == modified
    ensures ToView(Saved(data, decided, now, id, created, modified)).status == decided
    ensures ToView(Saved(data, decided, now, id, created, modified)).eventId == ParseIntValue(data.eventId)
    ensures Truthy(data.userId) ==> ToView(Saved(data, decided, now, id, created, modified)).userId == data.userId
    ensures !Truthy(data.userId) ==> ToView(Saved(data, decided, now, id, created, modified)).userId == Empty
    ensures Truthy(data.userEmail) ==> ToView(Saved(data, decided, now, id, created, modified)).userEmail == data.userEmail
    ensures !Truthy(data.userEmail) ==> ToView(Saved(data, decided, now, id, created, modified)).userEmail == Empty
    ensures ToView(Saved(data, decided, now, id, created, modified)).userName
      == Or(Or(data.userName, data.userEmail), Str("Registration"))
    ensures Truthy(ToView(Saved(data, decided, now, id, created, modified)).userName)
    ensures Truthy(now) ==> ToView(Saved(data, decided, now, id, created, modified)).registeredAt == now
    ensures !Truthy(now) ==> ToView(Saved(data, decided, now, id, created, modified)).registeredAt == created
  {
  }

  /** A promotion notice is sent only for a registration that was on the
      waitlist, is asked to become confirmed, and whose saved record (once
      the store applied the update) is confirmed and has an email. */
  lemma PromotionNoticeOnlyOnPromotion(current: Call<RecordResponse<Row>>, stored: Row, id: Value,
                                       data: RegistrationData, call: Call<MutationResponse<Row>>)
    requires FirstSucceeded(call) ==> First(call).data == Apply(stored, UpdateRecord(id, data))
    requires Update(current, data, call).Ok? && Update(current, data, call).value.1.Some?
    ensures GetById(current).Ok? && GetById(current).value.status == Waitlist
    ensures First(call).data.status_c == Confirmed
    ensures Truthy(First(call).data.user_email_c)
    ensures Update(current, data, call).value.0.status == Confirmed
  {
  }
}
