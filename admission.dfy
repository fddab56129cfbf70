/** The admission policy over a whole registration table: the table is a
    sequence of stored registration records, the event catalogue a map from
    event id to stored event record, and `create` decides a status from the
    confirmed count and appends the record. With an accurate count,
    sequential creates never confirm more registrations for an event than
    its capacity; a failed count, or an update that sets the status, can. */
module Admission {
  import opened Js
  import opened Sdk
  import Events
  import R = Registrations

  type Table = seq<R.Row>
  type Catalogue = map<int, Events.Row>

  /** Whether a stored registration belongs to event `e` and has status `s`:
      what the count and waitlist queries filter on. */
  predicate IsMatch(row: R.Row, e: int, s: Value) {
    row.event_id_c == Num(e) && row.status_c == s
  }

  /** The records of `t` that belong to event `e` and have status `s`, in
      table order. */
  function Matching(t: Table, e: int, s: Value): (m: seq<R.Row>)
    ensures |m| <= |t|
    ensures forall i :: 0 <= i < |m| ==> IsMatch(m[i], e, s)
  {
    if t == [] then []
    else
      var init := t[..|t| - 1];
      if IsMatch(t[|t| - 1], e, s) then Matching(init, e, s) + [t[|t| - 1]] else Matching(init, e, s)
  }

  /** The query returns exactly the records of event `e` with status `s`. */
  lemma {:induction false} MatchingMembers(t: Table, e: int, s: Value)
    ensures forall row :: row in Matching(t, e, s) <==> row in t && IsMatch(row, e, s)
  {
    if t != [] {
      var init := t[..|t| - 1];
      assert t == init + [t[|t| - 1]];
      MatchingMembers(init, e, s);
    }
  }

  /** The number of confirmed registrations of event `e`. */
  function ConfirmedCount(t: Table, e: int): nat {
    |Matching(t, e, R.Confirmed)|
  }

  /** A store that answers a query with exactly the given records. */
  function Answer(rows: seq<R.Row>): Call<FetchResponse<R.Row>> {
    Returned(FetchResponse(true, "", Some(rows)))
  }

  /** The event a create looks up: the catalogue entry under the parsed
      event id, or "Event not found". */
  function EventLookup(cat: Catalogue, eventId: Value): (r: Result<Events.Event>)
    ensures r.Ok? <==> ParseInt(eventId).Some? && ParseInt(eventId).value in cat
    ensures r.Ok? ==> r.value == Events.ToEvent(cat[ParseInt(eventId).value])
    ensures r.Err? ==> r.error == "Event not found"
  {
    match ParseInt(eventId)
    case Some(k) => if k in cat then Ok(Events.ToEvent(cat[k])) else Err("Event not found")
    case None => Err("Event not found")
  }

  /** One `create` against the table, with `count` the store's answer to
      the confirmed-count query: decide the status and append the record,
      stamped by the store with `newId` and the time `now`. A failed event
      lookup leaves the table as it was. */
  function CreateStep(t: Table, cat: Catalogue, count: Call<FetchResponse<R.Row>>,
                      data: R.RegistrationData, now: Value, newId: int): (r: Result<Table>)
    ensures EventLookup(cat, data.eventId).Err? ==> r == Err("Event not found")
    ensures EventLookup(cat, data.eventId).Ok? ==> r.Ok? && |r.value| == |t| + 1 && r.value[..|t|] == t
    ensures r.Ok? ==> r.value[|t|].event_id_c == Num(ParseInt(data.eventId).value)
    ensures r.Ok? ==>
      r.value[|t|].status_c == R.DecideStatus(R.Count(count), Events.ToEvent(cat[ParseInt(data.eventId).value]).capacity)
  {
    match R.CreateRequest(EventLookup(cat, data.eventId), count, data, now)
    case Err(e) => Err(e)
    case Ok((_, record)) => Ok(t + [record.(Id := Num(newId), CreatedOn := now, ModifiedOn := now)])
  }

  /** The store's accurate answer to the confirmed-count query of a create. */
  function AccurateCount(t: Table, data: R.RegistrationData): Call<FetchResponse<R.Row>> {
    match ParseInt(data.eventId)
    case Some(k) => Answer(Matching(t, k, R.Confirmed))
    case None => Answer([])
  }

  /** A create whose count query is answered accurately. */
  function HonestCreate(t: Table, cat: Catalogue, data: R.RegistrationData, now: Value, newId: int): Result<Table> {
    CreateStep(t, cat, AccurateCount(t, data), data, now, newId)
  }

  /** A registration request: the input, the time it is made, and the id
      the store gives the new record. */
  datatype Request = Request(data: R.RegistrationData, now: Value, newId: int)

  /** Requests handled one after the other; one that fails leaves the table
      unchanged. */
  function CreateAll(t: Table, cat: Catalogue, reqs: seq<Request>): Table
    decreases |reqs|
  {
    if reqs == [] then t
    else
      var next := match HonestCreate(t, cat, reqs[0].data, reqs[0].now, reqs[0].newId)
        case Ok(t1) => t1
        case Err(_) => t;
      CreateAll(next, cat, reqs[1..])
  }

  /** The most confirmations capacity `n` allows. */
  function Limit(n: int): nat {
    if n < 0 then 0 else n
  }

  /** Every catalogued event stores a numeric capacity, as the event
      service's create and update guarantee. */
  predicate NumericCapacities(cat: Catalogue) {
    forall e :: e in cat ==> cat[e].capacity_c.Num?
  }

  /** No catalogued event has more confirmed registrations than its
      capacity allows. */
  predicate WithinCapacity(t: Table, cat: Catalogue)
    requires NumericCapacities(cat)
  {
    forall e :: e in cat ==> ConfirmedCount(t, e) <= Limit(cat[e].capacity_c.n)
  }

  /** Appending a record appends it to the query it matches and leaves
      every other query alone. */
  lemma MatchingAppend(t: Table, row: R.Row, e: int, s: Value)
    ensures Matching(t + [row], e, s) == Matching(t, e, s) + (if IsMatch(row, e, s) then [row] else [])
    ensures |Matching(t + [row], e, s)| == |Matching(t, e, s)| + (if IsMatch(row, e, s) then 1 else 0)
  {
    assert (t + [row])[..|t|] == t;
  }

  /** A create with an accurate count keeps every event within capacity:
      it confirms only while fewer than the capacity are confirmed. */
  lemma CreateKeepsCapacity(t: Table, cat: Catalogue, data: R.RegistrationData, now: Value, newId: int)
    requires NumericCapacities(cat) && WithinCapacity(t, cat)
    requires HonestCreate(t, cat, data, now, newId).Ok?
    ensures WithinCapacity(HonestCreate(t, cat, data, now, newId).value, cat)
  {
    var t' := HonestCreate(t, cat, data, now, newId).value;
    var k := ParseInt(data.eventId).value;
    var row := t'[|t|];
    assert t' == t + [row];
    assert R.Count(AccurateCount(t, data)) == ConfirmedCount(t, k);
    forall e | e in cat
      ensures ConfirmedCount(t', e) <= Limit(cat[e].capacity_c.n)
    {
      MatchingAppend(t, row, e, R.Confirmed);
    }
  }

  /** Hence any run of creates with accurate counts keeps every event
      within capacity. */
  lemma {:induction false} CreateAllKeepsCapacity(t: Table, cat: Catalogue, reqs: seq<Request>)
    requires NumericCapacities(cat) && WithinCapacity(t, cat)
    ensures WithinCapacity(CreateAll(t, cat, reqs), cat)
    decreases |reqs|
  {
    if reqs != [] {
      var r := reqs[0];
      var res := HonestCreate(t, cat, r.data, r.now, r.newId);
      if res.Ok? {
        CreateKeepsCapacity(t, cat, r.data, r.now, r.newId);
        CreateAllKeepsCapacity(res.value, cat, reqs[1..]);
      } else {
        CreateAllKeepsCapacity(t, cat, reqs[1..]);
      }
    }
  }

  /** The count query falls back to 0 when it fails, so a create whose
      count fails confirms the registration however full the event is: an
      event at capacity ends up over it. */
  lemma FailedCountOverbooks(t: Table, cat: Catalogue, count: Call<FetchResponse<R.Row>>,
                             data: R.RegistrationData, now: Value, newId: int)
    requires NumericCapacities(cat)
    requires Fetched(count).Err?
    requires ParseInt(data.eventId).Some? && ParseInt(data.eventId).value in cat
    requires cat[ParseInt(data.eventId).value].capacity_c.n > 0
    requires ConfirmedCount(t, ParseInt(data.eventId).value) == Limit(cat[ParseInt(data.eventId).value].capacity_c.n)
    ensures CreateStep(t, cat, count, data, now, newId).Ok?
    ensures ConfirmedCount(CreateStep(t, cat, count, data, now, newId).value, ParseInt(data.eventId).value)
      == ConfirmedCount(t, ParseInt(data.eventId).value) + 1
    ensures !WithinCapacity(CreateStep(t, cat, count, data, now, newId).value, cat)
  {
    var k := ParseInt(data.eventId).value;
    var t' := CreateStep(t, cat, count, data, now, newId).value;
    var row := t'[|t|];
    assert t' == t + [row];
    MatchingAppend(t, row, k, R.Confirmed);
  }

  /** What the store does with an update record: the record whose `Id` it
      names takes every column the update carries. */
  function ApplyUpdate(t: Table, id: Value, u: R.Row): (t': Table)
    ensures |t'| == |t|
    ensures forall i :: 0 <= i < |t| && t[i].Id == id ==> t'[i] == R.Apply(t[i], u)
    ensures forall i :: 0 <= i < |t| && t[i].Id != id ==> t'[i] == t[i]
  {
    seq(|t|, i requires 0 <= i < |t| => if t[i].Id == id then R.Apply(t[i], u) else t[i])
  }

  /** Two tables of equal length that agree, record by record, on which
      records match have the same count. */
  lemma {:induction false} SameMatches(t: Table, t': Table, e: int, s: Value)
    requires |t| == |t'|
    requires forall i :: 0 <= i < |t| ==> (IsMatch(t[i], e, s) <==> IsMatch(t'[i], e, s))
    ensures |Matching(t, e, s)| == |Matching(t', e, s)|
  {
    if t != [] {
      SameMatches(t[..|t| - 1], t'[..|t| - 1], e, s);
    }
  }

  /** The count of a non-empty table: that of all but its last record,
      plus one when the last record matches. */
  lemma CountStep(t: Table, e: int, s: Value)
    requires t != []
    ensures |Matching(t, e, s)| == |Matching(t[..|t| - 1], e, s)| + (if IsMatch(t[|t| - 1], e, s) then 1 else 0)
  {
  }

  /** Two tables of equal length that differ in whether record `j` matches,
      and agree on every other record, differ by one in their counts. */
  lemma {:induction false} OneMoreMatch(t: Table, t': Table, j: nat, e: int, s: Value)
    requires |t| == |t'| && j < |t|
    requires forall i :: 0 <= i < |t| && i != j ==> (IsMatch(t[i], e, s) <==> IsMatch(t'[i], e, s))
    requires !IsMatch(t[j], e, s) && IsMatch(t'[j], e, s)
    ensures |Matching(t', e, s)| == |Matching(t, e, s)| + 1
  {
    var n := |t| - 1;
    var init, init' := t[..n], t'[..n];
    CountStep(t, e, s);
    CountStep(t', e, s);
    if j == n {
      forall i | 0 <= i < n
        ensures IsMatch(init[i], e, s) <==> IsMatch(init'[i], e, s)
      {
        assert init[i] == t[i] && init'[i] == t'[i];
      }
      SameMatches(init, init', e, s);
    } else {
      forall i | 0 <= i < n && i != j
        ensures IsMatch(init[i], e, s) <==> IsMatch(init'[i], e, s)
      {
        assert init[i] == t[i] && init'[i] == t'[i];
      }
      assert init[j] == t[j] && init'[j] == t'[j];
      OneMoreMatch(init, init', j, e, s);
    }
  }

  /** The input of an update that only asks for `confirmed`. */
  const Promote := R.RegistrationData(Undefined, Undefined, Undefined, Undefined, R.Confirmed, Undefined)

  /** `update` checks no capacity: promoting a waitlisted registration of an
      event that is already full puts the event over its capacity. */
  lemma UpdateCanOverbook(t: Table, cat: Catalogue, j: nat, e: int)
    requires NumericCapacities(cat) && e in cat
    requires j < |t| && IsMatch(t[j], e, R.Waitlist)
    requires forall i :: 0 <= i < |t| && i != j ==> t[i].Id != t[j].Id
    requires ConfirmedCount(t, e) == Limit(cat[e].capacity_c.n)
    ensures ConfirmedCount(ApplyUpdate(t, t[j].Id, R.UpdateRecord(t[j].Id, Promote)), e) == ConfirmedCount(t, e) + 1
    ensures !WithinCapacity(ApplyUpdate(t, t[j].Id, R.UpdateRecord(t[j].Id, Promote)), cat)
  {
    var t' := ApplyUpdate(t, t[j].Id, R.UpdateRecord(t[j].Id, Promote));
    assert t'[j].status_c == R.Confirmed && t'[j].event_id_c == t[j].event_id_c;
    OneMoreMatch(t, t', j, e, R.Confirmed);
  }

  /** An update that sets neither the status nor the event leaves every
      count of every event as it was. */
  lemma UpdateKeepsCounts(t: Table, id: Value, data: R.RegistrationData, e: int, s: Value)
    requires data.status == Undefined && data.eventId == Undefined
    ensures |Matching(ApplyUpdate(t, id, R.UpdateRecord(id, data)), e, s)| == |Matching(t, e, s)|
  {
    var t' := ApplyUpdate(t, id, R.UpdateRecord(id, data));
    forall i | 0 <= i < |t|
      ensures t'[i].event_id_c == t[i].event_id_c && t'[i].status_c == t[i].status_c
    {
    }
    SameMatches(t', t, e, s);
  }

  /** Promoting a waitlisted registration of an event that still has room
      keeps every event within capacity. */
  lemma PromotionWithRoom(t: Table, cat: Catalogue, j: nat, e: int)
    requires NumericCapacities(cat) && WithinCapacity(t, cat) && e in cat
    requires j < |t| && IsMatch(t[j], e, R.Waitlist)
    requires forall i :: 0 <= i < |t| && i != j ==> t[i].Id != t[j].Id
    requires ConfirmedCount(t, e) < Limit(cat[e].capacity_c.n)
    ensures WithinCapacity(ApplyUpdate(t, t[j].Id, R.UpdateRecord(t[j].Id, Promote)), cat)
  {
    var t' := ApplyUpdate(t, t[j].Id, R.UpdateRecord(t[j].Id, Promote));
    assert t'[j].status_c == R.Confirmed && t'[j].event_id_c == t[j].event_id_c;
    forall e' | e' in cat
      ensures ConfirmedCount(t', e') <= Limit(cat[e'].capacity_c.n)
    {
      if e' == e {
        OneMoreMatch(t, t', j, e, R.Confirmed);
      } else {
        SameMatches(t, t', e', R.Confirmed);
      }
    }
  }

  /** What the store does with a delete: every record with the given `Id`
      is removed. */
  function DeleteRows(t: Table, id: Value): (t': Table)
    ensures |t'| <= |t|
    ensures forall i :: 0 <= i < |t'| ==> t'[i].Id != id
  {
    if t == [] then []
    else
      var init := t[..|t| - 1];
      if t[|t| - 1].Id == id then DeleteRows(init, id) else DeleteRows(init, id) + [t[|t| - 1]]
  }

  /** A delete removes exactly the records with the deleted `Id`. */
  lemma {:induction false} DeleteMembers(t: Table, id: Value)
    ensures forall row :: row in DeleteRows(t, id) <==> row in t && row.Id != id
  {
    if t != [] {
      var init := t[..|t| - 1];
      assert t == init + [t[|t| - 1]];
      DeleteMembers(init, id);
    }
  }

  /** Appending a record keeps it unless it has the deleted `Id`. */
  lemma DeleteAppend(t: Table, row: R.Row, id: Value)
    ensures DeleteRows(t + [row], id) == DeleteRows(t, id) + (if row.Id != id then [row] else [])
  {
    assert (t + [row])[..|t|] == t;
  }

  /** A delete keeps the surviving records in their order: deleting from
      two parts of a table and joining the results is deleting from the
      whole. */
  lemma {:induction false} DeleteConcat(t1: Table, t2: Table, id: Value)
    ensures DeleteRows(t1 + t2, id) == DeleteRows(t1, id) + DeleteRows(t2, id)
  {
    if t2 == [] {
      assert t1 + t2 == t1;
    } else {
      var init := t2[..|t2| - 1];
      var last := t2[|t2| - 1];
      assert t2 == init + [last];
      assert t1 + t2 == (t1 + init) + [last];
      DeleteConcat(t1, init, id);
      DeleteAppend(t1 + init, last, id);
      DeleteAppend(init, last, id);
    }
  }

  /** A delete of an `Id` no record has leaves the table as it is. */
  lemma {:induction false} DeleteAbsentId(t: Table, id: Value)
    requires forall i :: 0 <= i < |t| ==> t[i].Id != id
    ensures DeleteRows(t, id) == t
  {
    if t != [] {
      var init := t[..|t| - 1];
      assert t == init + [t[|t| - 1]];
      DeleteAbsentId(init, id);
    }
  }

  /** After a delete, every query (the count and waitlist queries among
      them) returns what it returned before, in the same order, less the
      deleted records. */
  lemma {:induction false} DeleteMatching(t: Table, id: Value, e: int, s: Value)
    ensures Matching(DeleteRows(t, id), e, s) == DeleteRows(Matching(t, e, s), id)
  {
    if t != [] {
      var init := t[..|t| - 1];
      var last := t[|t| - 1];
      assert t == init + [last];
      DeleteMatching(init, id, e, s);
      MatchingAppend(init, last, e, s);
      if last.Id != id {
        MatchingAppend(DeleteRows(init, id), last, e, s);
      }
      if IsMatch(last, e, s) {
        DeleteAppend(Matching(init, e, s), last, id);
      }
    }
  }

  /** Deleting records never raises a count. */
  lemma {:induction false} DeleteLowersCounts(t: Table, id: Value, e: int, s: Value)
    ensures |Matching(DeleteRows(t, id), e, s)| <= |Matching(t, e, s)|
  {
    if t != [] {
      var init := t[..|t| - 1];
      var last := t[|t| - 1];
      DeleteLowersCounts(init, id, e, s);
      if last.Id != id {
        MatchingAppend(DeleteRows(init, id), last, e, s);
      }
    }
  }

  /** Hence a delete keeps every event within capacity. */
  lemma DeleteKeepsCapacity(t: Table, cat: Catalogue, id: Value)
    requires NumericCapacities(cat) && WithinCapacity(t, cat)
    ensures WithinCapacity(DeleteRows(t, id), cat)
  {
    forall e | e in cat
      ensures ConfirmedCount(DeleteRows(t, id), e) <= Limit(cat[e].capacity_c.n)
    {
      DeleteLowersCounts(t, id, e, R.Confirmed);
    }
  }
}
