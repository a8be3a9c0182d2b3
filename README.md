# Workday codec of the workdays service

This project models the data-format core of the `WorkdaysService` of a small
task-tracking web application. The service stores "workdays" in a document
database through its REST API. A workday holds an owner id, notes, a due
date, a display date derived from the due date, and an ordered list of tasks.
Each task has a title, `todo` and `done` counters and a `completed` flag.

The model covers:

- **Encoder** (`getWorkdayForFirestore`, `getTaskListForFirestore`,
  `getTaskForFirestore`): builds the `fields` of a create request in the
  store's tagged encoding (`stringValue`, `integerValue`, `booleanValue`,
  `arrayValue`, `mapValue`). The due date is normalised to epoch seconds by
  one of two branches. The display date is recomputed by the injected date
  service. Tasks keep their order. `completed` is always written as `false`.
- **Decoder** (`getWorkdayFromFirestore`): rebuilds a workday from a stored
  document. The id is segment 6 of the resource name split on `/`.
- **Query builder** (`getSructuredQuery`): a `runQuery` body over collection
  `workdays`, an `AND` of two `EQUAL` filters (display date, then owner), limit 1.
- **Result selection** in `getWorkdayByDate`: no `document` in the first
  result means "no workday", otherwise the decoded document.

Files (one module each): `wrappers.dfy` (Option), `text.dfy` (splitting on a
separator, decimal text and integers), `firestore.dfy` (wire values,
documents, the structured query, and a reference reading of what the store's
`runQuery` answers), `workdays.dfy` (domain model and codec),
`workdays_properties.dfy` (round trips, query and lookup properties).

The date formatting service is a parameter `getDisplayDate: int -> string`,
applied to epoch milliseconds as the source applies it to `new Date(ms)`.
A non-text due date is represented by the epoch milliseconds `new Date(...)`
makes of it. The decoded due date is the decimal text of the stored integer,
because the store returns integer fields as decimal strings; that is the
case the source's text branch exists for.

## Model

| member | source | states |
|---|---|---|
| Text.Split | src/app/core/services/workdays.service.ts:77 | splitting gives one more segment than there are separators, and no segment contains the separator |
| Text.JoinSplit | src/app/core/services/workdays.service.ts:77 | joining the segments of a split with the separator gives back the original name |
| Text.SplitJoin | src/app/core/services/workdays.service.ts:77 | splitting a join of separator-free segments gives back exactly those segments |
| Text.ParseInt | src/app/core/services/workdays.service.ts:140 | unary plus yields a number exactly for an integer literal (optional sign, then one or more digits); the number is the digits' positional value, negated under a minus sign |
| Text.ParseIntDigits | src/app/core/services/workdays.service.ts:140 | a digit string reads as its positional value bare or after '+', and as its negation after '-' |
| Text.ParseIntLeadingZero | src/app/core/services/workdays.service.ts:140 | a leading zero does not change the number a digit string reads as |
| Text.ParseIntText | src/app/core/services/workdays.service.ts:140 | unary plus on the decimal text of any integer yields that integer |
| Workdays.DueSeconds | src/app/core/services/workdays.service.ts:135-145 | text due dates are parsed as decimal integers; a date gives its milliseconds divided by 1000, defined exactly when the date is in range and a whole number of seconds |
| Workdays.TaskValue | src/app/core/services/workdays.service.ts:176-186 | an encoded task is a map with exactly the fields title, todo, done and completed, and reads back with the same title, todo and done, and completed false |
| Workdays.TaskValues | src/app/core/services/workdays.service.ts:170 | the encoded list has one element per task, element i being the encoding of task i |
| Workdays.TaskListValue | src/app/core/services/workdays.service.ts:163-173 | the task list is an array value with one element per task, element i reading back as task i with completed false |
| Workdays.GetTaskListForFirestore | src/app/core/services/workdays.service.ts:163-173 | pushing encoded tasks one by one builds an array value of the same length and order, element i the encoding of task i |
| Workdays.WorkdayForFirestore | src/app/core/services/workdays.service.ts:134-160 | a create body exists exactly when the due date normalises to whole seconds |
| Workdays.WorkdayId | src/app/core/services/workdays.service.ts:77 | the id exists exactly when the name has at least six separators, and it contains no separator |
| Workdays.TaskFromFirestore | src/app/core/services/workdays.service.ts:80-85 | a decoded task's title, todo, done and completed are exactly the stored fields of those names; decoding fails only when the value is not a map or one of the four fields is missing or carries another tag |
| Workdays.TasksFromFirestore | src/app/core/services/workdays.service.ts:79-87 | the decoded list has one task per stored element, in order, each the decode of its element; it fails only when some element does not decode |
| Workdays.WorkdayFromFirestore | src/app/core/services/workdays.service.ts:75-97 | a decoded workday has the id from the name, owner, notes and display date equal to the stored strings, a due date whose text parses back to the stored integer, and the decoded stored tasks; decoding fails only when tasks is not an array of decodable tasks or one of userId, notes, displayDate, dueDate is missing or carries another tag |
| Workdays.GetWorkdayFromFirestore | src/app/core/services/workdays.service.ts:75-97 | the push loop over the stored tasks yields the decoded workday, or nothing at the first task that does not decode |
| Workdays.SelectWorkday | src/app/core/services/workdays.service.ts:64-70 | "no workday" exactly when the first result has no document; when it has one, the answer is a workday exactly when that document decodes, and then it is the decode of the document's name and fields |
| Workdays.DateOwnerFilterMeaning | src/app/core/services/workdays.service.ts:106-127 | the AND of the two EQUAL filters holds of exactly the fields whose displayDate and userId are the given strings |
| Workdays.StructuredQueryFor | src/app/core/services/workdays.service.ts:100-131 | the query reads collection workdays with limit 1, and its filter holds of a document exactly when its displayDate and userId equal the arguments |
| WorkdaysProperties.CompletedIsNotEncoded | src/app/core/services/workdays.service.ts:183 | the encoded task does not depend on the completed flag, and its completed field is booleanValue false |
| WorkdaysProperties.TaskEncodingInjective | src/app/core/services/workdays.service.ts:176-186 | tasks with equal encodings agree on title, todo and done |
| WorkdaysProperties.TasksRoundTrip | src/app/core/services/workdays.service.ts:163-186 | decoding an encoded task list gives the same tasks in the same order, each with completed false |
| WorkdaysProperties.ClearCompletedEncodesAlike | src/app/core/services/workdays.service.ts:183 | clearing every completed flag leaves the encoded task list unchanged |
| WorkdaysProperties.EncodedFieldNames | src/app/core/services/workdays.service.ts:151-159 | the create body has exactly the fields dueDate, displayDate, tasks, notes and userId, and no id |
| WorkdaysProperties.EncodingIgnoresIdAndDisplayDate | src/app/core/services/workdays.service.ts:148-158 | the create body depends neither on the workday's id nor on the display date it carries |
| WorkdaysProperties.TextDueDateStored | src/app/core/services/workdays.service.ts:139-141 | a due date given as the decimal text of n is stored as integerValue n and displayed from n seconds |
| WorkdaysProperties.DecimalDueDateStored | src/app/core/services/workdays.service.ts:139-141 | a due date written as digits, bare or after '+' or '-', is stored as integerValue the digits' value with that sign |
| WorkdaysProperties.WorkdayRoundTrip | src/app/core/services/workdays.service.ts:89-96 | decoding the written fields gives back notes, owner and tasks (completed false), the display date formatted at save time, the stored seconds as text, and the id from the name |
| WorkdaysProperties.ReencodeDecoded | src/app/core/services/workdays.service.ts:138-141 | saving a workday read back from the store writes exactly the fields it was read from |
| WorkdaysProperties.IdFromResourceName | src/app/core/services/workdays.service.ts:77 | for a name projects/P/databases/D/documents/workdays/ID with slash-free parts, the decoded id is ID |
| WorkdaysProperties.IdIsSeventhSegment | src/app/core/services/workdays.service.ts:77 | for any name made of seven or more slash-free segments, the id is the segment at index 6 |
| WorkdaysProperties.SavedWorkdayMatches | src/app/core/services/workdays.service.ts:106-126 | the fields written for a workday satisfy the query for its display date and owner |
| WorkdaysProperties.LookupAnswer | src/app/core/services/workdays.service.ts:51-72 | the lookup answers "no workday" exactly when no stored workday has that display date and owner, a found workday has them, and when the first matching document decodes the answer is that document's workday |
| WorkdaysProperties.SavedWorkdayIsNotMissing | src/app/core/services/workdays.service.ts:51-72 | after a workday's fields are stored, looking it up by its display date and owner does not answer "no workday" |
| WorkdaysProperties.EmptyAnswerIsNoWorkday | src/app/core/services/workdays.service.ts:65-68 | the answer `[{}]` (one element, no document) that the store gives when nothing matches yields "no workday", not a failure |

## Left out

- HTTP transport, request URLs, headers, the bearer token read from local storage and the environment configuration of `save` and `getWorkdayByDate` (src/app/core/services/workdays.service.ts:28-37, 52-61): I/O plumbing.
- The RxJS pipeline and its side effects: success toast, error handler, loading flag (src/app/core/services/workdays.service.ts:38-47): asynchronous behaviour of foreign libraries.
- The date formatting service (src/app/core/services/date.service.ts is not part of this model): it is the parameter `getDisplayDate`, about which nothing is assumed.
- The store itself: `Firestore.RunQuery` is a reference reading of its query semantics (exact equality, AND, first matching documents up to the limit, one empty result wrapper when nothing matches), used only to state the lookup lemmas.
- The `Task` and `Workday` classes (src/app/shared/models/task.ts and workday.ts are not part of this model): their constructors are taken to copy the given fields.
- Workdays.DueSeconds: a non-text due date is represented by its epoch milliseconds. Other values handed to `new Date(...)` are not modelled. A result that would be NaN or fractional is modelled as "no create body". The source still sends it: NaN goes out as `"integerValue": null`, a fraction as a fractional number. The model assumes the store refuses both; the source does not show that.
- Text.ParseInt: accepts only an optional sign followed by decimal digits. JavaScript's unary plus also trims white space, turns empty text into 0, and reads hexadecimal, binary, octal, exponent and fractional forms; those give None here.
- Workdays.DueSeconds: JavaScript numbers above 2^53 lose precision; the model computes with exact integers.
- Workdays.WorkdayFromFirestore: where the source would read `undefined` from a field with an unexpected tag, or throw on a missing one, the model answers None for both.
- Workdays.WorkdayFromFirestore: decoded `todo` and `done` are decimal strings at run time (the store returns integers as text); the model keeps their numeric value.
- The store leaves `values` out of an empty array value, and the source's `forEach` would then throw. The model's array value always has a list, so a workday without tasks decodes here.
- Workdays.SelectWorkday: requires the query answer to have a first element, since the source reads `data[0]` unguarded; the store always answers with at least one element.
- The navigation component (src/app/public/home/home-banner/home-banner.component.ts): UI glue that only forwards a page name to the router.
