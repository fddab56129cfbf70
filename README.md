# Gather event registration: admission policy and record mapping

Gather is a browser app for events. People browse events and register for
them, and organizers manage the events. Persistence is delegated to a hosted
record store reached through its SDK. The app's own logic sits in two service
classes:

- `EventService` maps records of table `event_c` to the UI's event objects and
  back.
- `RegistrationService` does the same for table `registration_c`. It also holds
  the admission policy:
  - a new registration is `confirmed` while the event has room and goes to the
    `waitlist` otherwise;
  - a user's waitlist position is their index in the waitlist ordered by
    registration time;
  - moving a registration from the waitlist to `confirmed` sends a promotion
    email.

The model is split into five modules:

- `Js` (js.dfy) models JavaScript values as the services see them: truthiness
  and `||`, `===`, `parseInt` on decimal strings and integers, and the numeric
  conversion behind `>=`.
- `Sdk` (sdk.dfy) models each SDK call's answer as an input: no client, a
  thrown error, or a response. It also holds:
  - the response decoding that every service method shares (`success`, `data`,
    `results[0]`);
  - the cached client handle (`getApperClient`), as a small class.
- `Events` (events.dfy) models `eventService.js`:
  - the DB→UI mapping;
  - the create record;
  - the partial update record, built by a method;
  - the error conditions of every operation.
- `Registrations` (registrationService.js) models:
  - the same mappings for registrations;
  - the counts;
  - the status decision;
  - the email template;
  - the waitlist position (`find` + `indexOf`);
  - the update builder;
  - the promotion-notice condition;
  - the error conditions.
- `Admission` (admission.dfy) treats the registration table as a sequence of
  records and the event catalogue as a map from id to event record. It proves:
  - sequential creates with accurate counts never confirm more registrations
    than an event's capacity, and neither do deletes, nor a promotion while
    there is room;
  - a failed count query (which reads as 0) breaks this;
  - an update that sets `status` breaks it too, because it checks no capacity.

Where the intended policy and the code differ, the model follows the code:

- The promotion notice also requires the saved record to have an email.
- The capacity is not assumed to be a non-negative integer: `>=` is modelled on
  any value with JavaScript's conversion. A numeral string such as `"10"`
  bounds the count like the number 10. The event mapping shows every falsy
  stored capacity (`undefined`, NaN, `null`, `""`, `false`) as 0, so such an
  event waitlists everyone. Only a truthy stored capacity that `>=` cannot
  convert (a string like `"abc"`, a lookup object) confirms every
  registration.

## Model

| member | source | states |
|---|---|---|
| `Js.Or` | src/services/api/eventService.js:52-62 | `a \|\| b` is one of its operands: `a` when truthy, else `b`; it is truthy iff either operand is |
| `Js.StrictEquals` | src/services/api/registrationService.js:100 | `===` holds only between equal values; equal primitives other than NaN are `===`; NaN and a lookup object are `===` to nothing |
| `Js.ParseIntString` | src/services/api/registrationService.js:223 | a string parses iff a digit follows the optional sign: an empty string or one starting with a letter gives NaN; a leading digit or `+` digit gives a non-negative number and a leading `-` digit a non-positive one; a sign not followed by a digit gives NaN |
| `Js.ParseIntOfPrefix` | src/services/api/registrationService.js:223 | `parseInt` stops at the first non-digit: a numeral followed by anything that does not start with a digit parses as the numeral |
| `Js.ParseInt` | src/services/api/eventService.js:148 | a string argument parses as that string; `undefined`, `null`, NaN, booleans and lookup objects give NaN |
| `Js.RelationalNumber` | src/services/api/registrationService.js:216 | `>=` converts a number to itself, `null`, `""` and `false` to 0, `true` to 1, and `undefined`, NaN and objects to NaN |
| `Js.RelationalNumberOfNumeral` | src/services/api/registrationService.js:216 | a string holding an integer's numeral converts to that integer |
| `Js.AtLeast` | src/services/api/registrationService.js:216 | `n >= v` compares with the number `v` converts to, and is false whenever `v` converts to NaN |
| `Js.AtLeastNumeral` | src/services/api/registrationService.js:216 | `n >= "m"` for the numeral of `m` holds exactly when `n >= m` |
| `Js.ParseIntOrZero` | src/services/api/eventService.js:148 | `parseInt(v) \|\| 0` is always a number: the parsed integer, or 0 when nothing parses |
| `Js.ParseIntOfNumber` | src/services/api/eventService.js:218 | `parseInt` of an integer written as its plain decimal numeral gives that integer back |
| `Js.ParseIntOrZeroOfNumber` | src/services/api/eventService.js:148 | `parseInt(capacity) \|\| 0` stores an integer capacity (in plain decimal) as itself |
| `Sdk.Fetched` | src/services/api/eventService.js:16-50 | a fetch yields `data \|\| []` exactly when the response succeeds; otherwise the error is the response's message, the thrown error, or "ApperClient not initialized" |
| `Sdk.Mutated` | src/services/api/eventService.js:156-168 | a mutation yields the first result's data iff the response and that result succeed. A failed first result gives its message or the fallback. A successful response with no results is a distinct outcome |
| `Sdk.Deleted` | src/services/api/eventService.js:278-292 | a delete succeeds iff the response succeeds and no first result reports failure; a failed first result gives its message or the fallback, a failed response its own message |
| `Sdk.ClientSlot.GetApperClient` | src/services/api/eventService.js:7-12 | the ambient client is cached on first use, and a cached client is kept and returned from then on |
| `Events.ShownFrom` | src/services/api/eventService.js:50-65 | every shown attribute is its column when that column is truthy, otherwise the field's default (`''`, 0 or false); so it is never some other falsy value |
| `Events.ToEvent` | src/services/api/eventService.js:107-122 | the title is `title_c`, else `Name`, else `''`; a numeric capacity is shown as stored; id and timestamps pass through |
| `Events.ShownValues` | src/services/api/eventService.js:50-65 | each UI attribute of a mapped event is the per-field rule `ShownFrom` |
| `Events.Columns` | src/services/api/eventService.js:140-151 | the title is written to both `Name` and `title_c`; every other field goes to exactly one column |
| `Events.Default` | src/services/api/eventService.js:52-62 | every fallback is falsy and never `undefined` |
| `Events.Stored` | src/services/api/eventService.js:140-151 | a create stores a truthy input as given, a falsy one as its default, and the capacity as `parseInt(capacity) \|\| 0`; never `undefined` |
| `Events.CreateWrites` | src/services/api/eventService.js:137-154 | the create record holds, in every writable column, the stored value of its field; it leaves `Id`, `CreatedOn` and `ModifiedOn` unset |
| `Events.CreateStoresNumericCapacity` | src/services/api/eventService.js:148 | a create always stores a number as the capacity |
| `Events.Assigned` | src/services/api/eventService.js:218 | a value that is given is never written as `undefined` |
| `Events.BuildUpdate` | src/services/api/eventService.js:204-221 | the step-by-step builder produces exactly the update record that `UpdateWrites` describes |
| `Events.UpdateWrites` | src/services/api/eventService.js:204-221 | the update record holds `Id` plus exactly the columns of the fields that are not `undefined`, with `title` in both `Name` and `title_c`; nothing else is written |
| `Events.UpdateKeepsNumericCapacity` | src/services/api/eventService.js:218 | an update keeps a numeric capacity numeric |
| `Events.Applied` | src/services/api/eventService.js:223-227 | the store overwrites exactly the columns the update record carries |
| `Events.UpdateApplied` | src/services/api/eventService.js:204-227 | after an update, a given field's columns hold the assigned value and the other columns are unchanged |
| `Events.CreateReadBack` | src/services/api/eventService.js:137-186 | a saved create reads back as the stored value of every field; a truthy non-capacity input reads back unchanged |
| `Events.UpdateReadBack` | src/services/api/eventService.js:204-257 | after an update, a field that was not given shows what it showed before; a given field shows the written value, or its default when that value is falsy |
| `Events.GetAll` | src/services/api/eventService.js:44-65 | a successful fetch gives every record mapped, in order; otherwise the fetch's error |
| `Events.GetById` | src/services/api/eventService.js:99-103 | the call fails with "Event not found" iff the response is unsuccessful or has no data |
| `Events.Create` | src/services/api/eventService.js:158-189 | succeeds iff the first result succeeds. A failed result gives its message or "Failed to create event". No results gives "No data returned from create operation" |
| `Events.Update` | src/services/api/eventService.js:229-260 | succeeds iff the first result succeeds. A failed result gives its message or "Failed to update event". No results gives "No data returned from update operation" |
| `Events.Delete` | src/services/api/eventService.js:280-292 | succeeds unless the response fails or its first result fails ("Failed to delete event"); a response with no results is a success |
| `Registrations.EventIdOf` | src/services/api/registrationService.js:141 | `event_id_c?.Id \|\| event_id_c` gives a lookup object's nonzero `Id`, and any other value unchanged |
| `Registrations.ToRegistration` | src/services/api/registrationService.js:139-149 | status defaults to the given status ('confirmed' on reads); userId and userEmail default to `''`; userName falls back `user_name_c` → `Name` → `''`; registeredAt falls back to `CreatedOn` |
| `Registrations.ToView` | src/services/api/registrationService.js:145 | every read shows the stored status when it is truthy and `'confirmed'` otherwise, so a shown status is never empty |
| `Registrations.Count` | src/services/api/registrationService.js:29-40 | the count is the number of records returned, and 0 on any failure (no client, an exception, an unsuccessful response) |
| `Registrations.DecideStatus` | src/services/api/registrationService.js:216 | waitlist iff `count >= capacity`, otherwise confirmed. For a numeric capacity, confirmed iff count < capacity, so capacity 0 always waitlists. A capacity that `>=` converts to NaN (`"abc"`, a lookup object) always confirms |
| `Registrations.EmailTemplate` | src/services/api/registrationService.js:259 | `registration_confirmation` iff the status is `'confirmed'`, otherwise `waitlist_confirmation` |
| `Registrations.TemplateOfDecision` | src/services/api/registrationService.js:216-259 | the template is the confirmation one exactly when the count is below the capacity |
| `Registrations.StoredCapacityDecides` | src/services/api/registrationService.js:212-216 | the event mapping shows every falsy stored capacity as 0 (eventService.js:116), so such an event waitlists everyone; a truthy stored capacity that `>=` cannot convert confirms everyone |
| `Registrations.Find` | src/services/api/registrationService.js:100 | `find` returns the first entry whose `user_id_c === userId`, or nothing when there is none; so a NaN or lookup-object user id is never found |
| `Registrations.IndexOf` | src/services/api/registrationService.js:101 | `indexOf` returns the first index holding the entry, or nothing when the entry is absent |
| `Registrations.WaitlistPosition` | src/services/api/registrationService.js:99-101 | the position is in 1..\|list\|, its entry is the user's, and no earlier entry is; it is null iff no entry is the user's (the empty list included) |
| `Registrations.DistinctUsersPosition` | src/services/api/registrationService.js:99-101 | on a waitlist of distinct users, the user of the entry at 0-based index j has position j + 1 (unless that user id is NaN or a lookup object, which `===` never matches) |
| `Registrations.WaitlistPositionForUser` | src/services/api/registrationService.js:92-105 | the position in the fetched waitlist, or null when the query fails |
| `Registrations.GetAll` | src/services/api/registrationService.js:131-149 | a successful fetch gives the mapped records; otherwise the fetch's error |
| `Registrations.ListOrEmpty` | src/services/api/registrationService.js:482-504 | `getByEventId` and `getByUserId` give the mapped records, or `[]` on any failure |
| `Registrations.GetById` | src/services/api/registrationService.js:178-196 | the call fails with "Registration not found" iff the response is unsuccessful or has no data |
| `Registrations.UserRegistrationForEvent` | src/services/api/registrationService.js:584-608 | the first returned record, mapped; null when nothing is returned or the query fails |
| `Registrations.CreateRequest` | src/services/api/registrationService.js:210-231 | a failed event lookup aborts with its error. Otherwise the status is decided from the count and the event's capacity, and the record is built with it |
| `Registrations.CreateWrites` | src/services/api/registrationService.js:219-231 | the create record's `Name` falls back userName → userEmail → "Registration"; `event_id_c` is the parsed event id or NaN; `user_id_c`, `user_email_c` and `user_name_c` are the input or `''`; `status_c` is the decided status and `registered_at_c` the time of the create; `Id` and the stamps are unset |
| `Registrations.CreateOutcome` | src/services/api/registrationService.js:233-304 | succeeds iff the first result succeeds, and is shown with the decided status when its own is falsy. A notice with that status's template goes out iff the input has an email |
| `Registrations.Create` | src/services/api/registrationService.js:203-309 | `create` fails with "ApperClient not initialized" before anything else when there is no client; otherwise a failed lookup aborts with its error, and the save's outcome is taken under the status decided from the count and the event's capacity |
| `Registrations.CreateReadBack` | src/services/api/registrationService.js:219-231 | a created registration reads back with the store's id and stamps, the decided status, the parsed event id, the given user id and email (or `''`), a never-empty user name (the name, else the email, else "Registration"), and the create time (or the creation stamp when that is falsy) |
| `Registrations.BuildUpdate` | src/services/api/registrationService.js:322-334 | the step-by-step builder produces exactly the update record that `UpdateWrites` describes |
| `Registrations.ShouldNotifyPromotion` | src/services/api/registrationService.js:356-358 | a promotion is announced iff the current status is `'waitlist'`, the requested status is `'confirmed'` and the saved record has a non-empty email |
| `Registrations.UpdateWrites` | src/services/api/registrationService.js:322-334 | the update record holds `Id` plus exactly the columns of the fields that are not `undefined`, with `userName` in both `user_name_c` and `Name`; nothing else is written |
| `Registrations.Update` | src/services/api/registrationService.js:318-417 | a failed read of the current registration aborts. A notice ("registration_confirmation", to the saved email) goes out iff the current status is waitlist, the requested status is 'confirmed' and the saved record has an email |
| `Registrations.PromotionNoticeOnlyOnPromotion` | src/services/api/registrationService.js:356-358 | when a notice is sent, the registration was on the waitlist, and the saved record is confirmed and has an email |
| `Registrations.Delete` | src/services/api/registrationService.js:437-449 | succeeds unless the response fails or its first result fails ("Failed to delete registration") |
| `Admission.Matching` | src/services/api/registrationService.js:21-27 | every record the query returns belongs to the event and has the status, and it returns no more records than the table holds |
| `Admission.MatchingMembers` | src/services/api/registrationService.js:21-27 | the query returns exactly the records of the event with the status |
| `Admission.EventLookup` | src/services/api/registrationService.js:212 | the event is found iff its id parses and is catalogued; otherwise "Event not found" |
| `Admission.CreateStep` | src/services/api/registrationService.js:210-233 | a create appends one record, with the parsed event id and the status decided from the count; a failed lookup appends nothing |
| `Admission.CreateKeepsCapacity` | src/services/api/registrationService.js:213-216 | with an accurate count, a create keeps every event within its capacity |
| `Admission.CreateAllKeepsCapacity` | src/services/api/registrationService.js:213-216 | any sequence of creates with accurate counts keeps every event within capacity |
| `Admission.FailedCountOverbooks` | src/services/api/registrationService.js:31-39 | when the count query fails, it reads as 0, so a full event gets one more confirmed registration than its capacity |
| `Admission.ApplyUpdate` | src/services/api/registrationService.js:336-340 | the record with the update's `Id` takes the update; every other record is unchanged |
| `Admission.UpdateCanOverbook` | src/services/api/registrationService.js:333 | promoting a waitlisted registration of a full event puts it over capacity, because `update` checks no capacity |
| `Admission.PromotionWithRoom` | src/services/api/registrationService.js:333 | promoting while the event has room keeps every event within capacity |
| `Admission.UpdateKeepsCounts` | src/services/api/registrationService.js:326-334 | an update that sets neither status nor event leaves every count unchanged |
| `Admission.DeleteRows` | src/services/api/registrationService.js:431-435 | no record that survives a delete has the deleted `Id`, and the table does not grow |
| `Admission.DeleteMembers` | src/services/api/registrationService.js:431-435 | a delete removes exactly the records with that `Id` |
| `Admission.DeleteConcat` | src/services/api/registrationService.js:431-435 | a delete keeps the survivors in order: deleting from two parts of a table and joining them is deleting from the whole |
| `Admission.DeleteAbsentId` | src/services/api/registrationService.js:431-435 | deleting an `Id` no record has leaves the table unchanged |
| `Admission.DeleteMatching` | src/services/api/registrationService.js:431-435 | after a delete, every count or waitlist query returns its old answer, in the same order, less the deleted records |
| `Admission.DeleteKeepsCapacity` | src/services/api/registrationService.js:431-435 | a delete keeps every event within capacity |

## Left out

- The backend SDK (`fetchRecords`, `getRecordById`, `createRecord`, `updateRecord`, `deleteRecord`) is not modelled. Each answer is an input to the operation that made the call. In `Admission`, the store is assumed to keep the records it is sent. It matches `event_id_c` by number, matches status by equality, and returns query results in table order.
- Ordering by `registered_at_c` or `CreatedOn` is done by the store. The model takes the order it receives: for the waitlist, table order is assumed to be registration-time order.
- The store assigns `Id`, `CreatedOn` and `ModifiedOn`. In the model these are parameters (`newId`, `now`), or are left untouched by updates.
- Email dispatch (`ApperSDK`, `functions.invoke`, `import.meta.env`) is not modelled. The model stops at the decision to send and the template. The email body's date formatting, and swallowing a failed send, are not modelled.
- Dates and the clock are opaque values: `new Date().toISOString()` becomes the parameter `now`.
- async/await, the dynamic import of the event service and `console` logging are not modelled. The read-count-then-create race is not modelled either: the capacity invariant is stated for sequential runs only.
- `Js.ParseInt` models an optional sign followed by the longest run of decimal digits. Leading whitespace, hexadecimal prefixes and `Infinity` are not modelled. Numbers are integers only, so fractional values and their numerals are not modelled.
- `Js.RelationalNumber` models JavaScript's number conversion only for integers written in decimal without whitespace. Strings like "1e3", " 5" or "0x10" are treated as not converting.
- A lookup object's `Name` is not modelled: only its `Id` is read.
- `Js.StrictEquals` treats every lookup object as a fresh object, `===` to nothing. The same object compared with itself is not modelled; the services never compare a record's lookup object with itself.
- `Js.ParseIntOfNumber` and `Js.ParseInt` on numbers: JavaScript's number range and precision are not modelled. Numbers are unbounded integers and `String(n)` is their plain decimal numeral. For a magnitude of 1e21 or more, JavaScript writes the numeral in exponent form (`"1e+21"`), and `parseInt` then gives the leading digit alone; the model gives the number itself.
- A response whose `results[0].data` is missing is not modelled: that data is always present. In the source, reading fields of a missing `data` throws a TypeError.
- The React pages, menus, router and the sign-up and callback pages are not part of this model.
- `Admission.EventLookup` finds an event by its parsed id in a catalogue map. This stands in for `eventService.getById` going through the store.
