/**
 * The workday codec of the workdays service: the domain model (a workday and
 * its ordered tasks), the encoder that builds the body of a create request,
 * the decoder that rebuilds a workday from a stored document, the structured
 * query that looks a workday up by display date and owner, and the step that
 * turns the query's answer into a workday or "none".
 *
 * The date formatting service is a parameter, `getDisplayDate`, applied to an
 * epoch time in milliseconds, as the source applies it to `new Date(ms)`.
 */
module Workdays {
  import opened Wrappers
  import opened Text
  import opened Firestore

  datatype Task = Task(title: string, todo: int, done: int, completed: bool)

  /**
   * A workday's due date as callers hand it over: text (a form value, or the
   * decimal string the store returns for an integer field), or a date-like
   * value, represented by the epoch milliseconds `new Date(...)` makes of it.
   */
  datatype DueDate = DueText(text: string) | DueInstant(ms: int)

  /** A workday; `id` is None before the first save, or when the resource name is too short. */
  datatype Workday = Workday(
    id: Option<string>,
    userId: string,
    notes: string,
    displayDate: string,
    dueDate: DueDate,
    tasks: seq<Task>)

  /** Outcome of looking up a workday: no stored document, a workday, or a document that does not decode. */
  datatype Lookup = NoWorkday | Found(workday: Workday) | Undecodable

  /** Largest distance from the epoch, in milliseconds, a JavaScript date can hold. */
  const MaxDateMs: int := 8_640_000_000_000_000

  /** Zero-based position of the document id among the '/'-separated segments of a resource name. */
  const IdSegment: nat := 6

  // ---------------------------------------------------------------- encoder

  /**
   * The due date as epoch seconds, as the two branches of the encoder compute
   * it: unary `+` on text; `new Date(ms).getTime() / 1000` otherwise. None
   * when the source's number is NaN (text that is not an integer literal, a
   * date out of range) or has a fractional part: neither is an integer the
   * store accepts as `integerValue`.
   */
  function DueSeconds(d: DueDate): (r: Option<int>)
    ensures d.DueText? ==> r == ParseInt(d.text)
    ensures d.DueInstant? ==> (r.Some? <==> -MaxDateMs <= d.ms <= MaxDateMs && d.ms % 1000 == 0)
    ensures d.DueInstant? && r.Some? ==> r.value * 1000 == d.ms
  {
    match d
    case DueText(s) => ParseInt(s)
    case DueInstant(ms) =>
      if -MaxDateMs <= ms <= MaxDateMs && ms % 1000 == 0 then Some(ms / 1000) else None
  }

  /** One task as a map value; its completion flag is always written as false. */
  function TaskValue(t: Task): (r: Value)
    ensures r.MapValue? && r.fields.Keys == TaskKeys
    ensures TaskFromFirestore(r) == Some(t.(completed := false))
  {
    MapValue(map[
      "title" := StringValue(t.title),
      "todo" := IntegerValue(t.todo),
      "done" := IntegerValue(t.done),
      "completed" := BooleanValue(false)])
  }

  /** The tasks' map values, in the tasks' order. */
  function TaskValues(ts: seq<Task>): (r: seq<Value>)
    ensures |r| == |ts|
    ensures forall i :: 0 <= i < |ts| ==> r[i] == TaskValue(ts[i])
    decreases |ts|
  {
    if ts == [] then [] else [TaskValue(ts[0])] + TaskValues(ts[1..])
  }

  /** The `tasks` field of the request body. */
  function TaskListValue(ts: seq<Task>): (r: Value)
    ensures r.ArrayValue? && |r.values| == |ts|
    ensures forall i :: 0 <= i < |ts| ==> TaskFromFirestore(r.values[i]) == Some(ts[i].(completed := false))
  {
    ArrayValue(TaskValues(ts))
  }

  /**
   * Builds the `tasks` field by pushing one encoded task after another onto
   * an initially empty array, in the tasks' order.
   */
  method GetTaskListForFirestore(tasks: seq<Task>) returns (taskList: Value)
    ensures taskList.ArrayValue? && |taskList.values| == |tasks|
    ensures forall i :: 0 <= i < |tasks| ==> taskList.values[i] == TaskValue(tasks[i])
    ensures taskList == TaskListValue(tasks)
  {
    var values: seq<Value> := [];
    for i := 0 to |tasks|
      invariant |values| == i
      invariant forall k :: 0 <= k < i ==> values[k] == TaskValue(tasks[k])
    {
      values := values + [TaskValue(tasks[i])];
    }
    taskList := ArrayValue(values);
  }

  /**
   * The `fields` of the create request body for `w`, or None when the due
   * date does not normalise to an integer number of seconds. The display
   * date is recomputed from the due date; `id` is never sent.
   */
  function WorkdayForFirestore(getDisplayDate: int -> string, w: Workday): (r: Option<Fields>)
    ensures r.Some? <==> DueSeconds(w.dueDate).Some?
  {
    match DueSeconds(w.dueDate)
    case None => None
    case Some(dueDate) =>
      Some(map[
        "dueDate" := IntegerValue(dueDate),
        "displayDate" := StringValue(getDisplayDate(dueDate * 1000)),
        "tasks" := TaskListValue(w.tasks),
        "notes" := StringValue(w.notes),
        "userId" := StringValue(w.userId)])
  }

  // ---------------------------------------------------------------- decoder

  function StringField(fields: Fields, key: string): Option<string> {
    if key in fields && fields[key].StringValue? then Some(fields[key].stringValue) else None
  }

  function IntegerField(fields: Fields, key: string): Option<int> {
    if key in fields && fields[key].IntegerValue? then Some(fields[key].integerValue) else None
  }

  function BooleanField(fields: Fields, key: string): Option<bool> {
    if key in fields && fields[key].BooleanValue? then Some(fields[key].booleanValue) else None
  }

  /** One task from its map value; None when a field is missing or carries another tag. */
  function TaskFromFirestore(v: Value): (r: Option<Task>)
    ensures r.Some? ==>
      v.MapValue? &&
      "title" in v.fields && v.fields["title"] == StringValue(r.value.title) &&
      "todo" in v.fields && v.fields["todo"] == IntegerValue(r.value.todo) &&
      "done" in v.fields && v.fields["done"] == IntegerValue(r.value.done) &&
      "completed" in v.fields && v.fields["completed"] == BooleanValue(r.value.completed)
    ensures r.None? ==> !v.MapValue? || exists key :: key in TaskKeys && !ReadableAs(v.fields, key)
  {
    if v.MapValue?
      && BooleanField(v.fields, "completed").Some?
      && IntegerField(v.fields, "done").Some?
      && StringField(v.fields, "title").Some?
      && IntegerField(v.fields, "todo").Some?
    then Some(Task(
      StringField(v.fields, "title").value,
      IntegerField(v.fields, "todo").value,
      IntegerField(v.fields, "done").value,
      BooleanField(v.fields, "completed").value))
    else None
  }

  /** The four fields a stored task carries. */
  const TaskKeys: set<string> := {"title", "todo", "done", "completed"}

  /** `fields` holds `key` with the tag the decoder reads it by. */
  predicate ReadableAs(fields: Fields, key: string) {
    key in fields &&
    match key
    case "title" => fields[key].StringValue?
    case "completed" => fields[key].BooleanValue?
    case _ => fields[key].IntegerValue?
  }

  predicate AllTasksDecode(vs: seq<Value>) {
    forall i :: 0 <= i < |vs| ==> TaskFromFirestore(vs[i]).Some?
  }

  /** The tasks of an array value, in order, when each element decodes. */
  function TasksFromFirestore(vs: seq<Value>): (r: Option<seq<Task>>)
    ensures r.Some? ==> |r.value| == |vs| && forall i :: 0 <= i < |vs| ==> TaskFromFirestore(vs[i]) == Some(r.value[i])
    ensures r.None? ==> exists i :: 0 <= i < |vs| && TaskFromFirestore(vs[i]).None?
  {
    if AllTasksDecode(vs)
    then Some(seq(|vs|, i requires 0 <= i < |vs| && AllTasksDecode(vs) => TaskFromFirestore(vs[i]).value))
    else None
  }

  /** The document id: segment 6 of the resource name split on '/', None (`undefined`) if there is none. */
  function WorkdayId(name: string): (r: Option<string>)
    ensures r.Some? <==> Occurrences(name, '/') >= IdSegment
    ensures r.Some? ==> '/' !in r.value
  {
    var segments := Split(name, '/');
    if |segments| > IdSegment then Some(segments[IdSegment]) else None
  }

  /**
   * A workday from a stored document's name and fields. The due date comes
   * back as the decimal text of the stored integer, the form in which the
   * store returns integer fields. None when a field the source reads is
   * missing or carries another tag.
   */
  function WorkdayFromFirestore(name: string, fields: Fields): (r: Option<Workday>)
    ensures r.Some? ==>
      r.value.id == WorkdayId(name) &&
      StringField(fields, "userId") == Some(r.value.userId) &&
      StringField(fields, "notes") == Some(r.value.notes) &&
      StringField(fields, "displayDate") == Some(r.value.displayDate) &&
      r.value.dueDate.DueText? &&
      IntegerField(fields, "dueDate").Some? &&
      ParseInt(r.value.dueDate.text) == IntegerField(fields, "dueDate") &&
      "tasks" in fields && fields["tasks"].ArrayValue? &&
      TasksFromFirestore(fields["tasks"].values) == Some(r.value.tasks)
    ensures r.None? ==>
      || !("tasks" in fields && fields["tasks"].ArrayValue?)
      || TasksFromFirestore(fields["tasks"].values).None?
      || StringField(fields, "userId").None?
      || StringField(fields, "notes").None?
      || StringField(fields, "displayDate").None?
      || IntegerField(fields, "dueDate").None?
  {
    if "tasks" in fields && fields["tasks"].ArrayValue?
      && TasksFromFirestore(fields["tasks"].values).Some?
      && StringField(fields, "userId").Some?
      && StringField(fields, "notes").Some?
      && StringField(fields, "displayDate").Some?
      && IntegerField(fields, "dueDate").Some?
    then
      ParseIntText(IntegerField(fields, "dueDate").value);
      Some(Workday(
      WorkdayId(name),
      StringField(fields, "userId").value,
      StringField(fields, "notes").value,
      StringField(fields, "displayDate").value,
      DueText(IntText(IntegerField(fields, "dueDate").value)),
      TasksFromFirestore(fields["tasks"].values).value))
    else None
  }

  /**
   * Rebuilds a workday from a stored document, pushing the decoded tasks one
   * by one onto an initially empty list; stops with None at the first
   * element that does not decode.
   */
  method GetWorkdayFromFirestore(name: string, fields: Fields) returns (w: Option<Workday>)
    ensures w == WorkdayFromFirestore(name, fields)
  {
    if !("tasks" in fields && fields["tasks"].ArrayValue?) {
      return None;
    }
    var values := fields["tasks"].values;
    var tasks: seq<Task> := [];
    var workdayId := WorkdayId(name);
    for i := 0 to |values|
      invariant |tasks| == i
      invariant forall k :: 0 <= k < i ==> TaskFromFirestore(values[k]) == Some(tasks[k])
    {
      var task := TaskFromFirestore(values[i]);
      if task.None? {
        assert !AllTasksDecode(values);
        return None;
      }
      tasks := tasks + [task.value];
    }
    assert AllTasksDecode(values);
    assert TasksFromFirestore(values).value == tasks;
    var userId := StringField(fields, "userId");
    var notes := StringField(fields, "notes");
    var displayDate := StringField(fields, "displayDate");
    var dueDate := IntegerField(fields, "dueDate");
    if userId.None? || notes.None? || displayDate.None? || dueDate.None? {
      return None;
    }
    w := Some(Workday(workdayId, userId.value, notes.value, displayDate.value, DueText(IntText(dueDate.value)), tasks));
  }

  // ---------------------------------------------------------------- query

  /** The query's filter: display date equal to `date`, and owner equal to `userId`, in that order. */
  function DateOwnerFilter(date: string, userId: string): CompositeFilter {
    CompositeFilter("AND", [
      FieldFilter("displayDate", "EQUAL", StringValue(date)),
      FieldFilter("userId", "EQUAL", StringValue(userId))])
  }

  /** The filter holds of exactly the fields whose display date and owner are the given text. */
  lemma DateOwnerFilterMeaning(date: string, userId: string)
    ensures forall fields :: WhereHolds(DateOwnerFilter(date, userId), fields) <==>
      StringField(fields, "displayDate") == Some(date) && StringField(fields, "userId") == Some(userId)
  {
    var c := DateOwnerFilter(date, userId);
    forall fields
      ensures WhereHolds(c, fields) <==>
        StringField(fields, "displayDate") == Some(date) && StringField(fields, "userId") == Some(userId)
    {
      if WhereHolds(c, fields) {
        assert FilterHolds(c.filters[0], fields);
        assert FilterHolds(c.filters[1], fields);
      }
    }
  }

  /** The `runQuery` body: workdays whose display date and owner equal the arguments, at most one. */
  function StructuredQueryFor(date: string, userId: string): (q: StructuredQuery)
    ensures q.from == ["workdays"] && q.limit == 1
    ensures forall fields :: WhereHolds(q.where, fields) <==>
      StringField(fields, "displayDate") == Some(date) && StringField(fields, "userId") == Some(userId)
  {
    DateOwnerFilterMeaning(date, userId);
    StructuredQuery(["workdays"], DateOwnerFilter(date, userId), 1)
  }

  /** The answer of `getWorkdayByDate` for the result array of its query; the array has a first element. */
  function SelectWorkday(data: seq<QueryResult>): (r: Lookup)
    requires |data| >= 1
    ensures r.NoWorkday? <==> data[0].document.None?
    ensures data[0].document.Some? ==>
      var d := data[0].document.value;
      (r.Found? <==> WorkdayFromFirestore(d.name, d.fields).Some?) &&
      (r.Found? ==> WorkdayFromFirestore(d.name, d.fields) == Some(r.workday))
  {
    match data[0].document
    case None => NoWorkday
    case Some(document) =>
      match WorkdayFromFirestore(document.name, document.fields)
      case Some(w) => Found(w)
      case None => Undecodable
  }
}
