/**
 * What the workday codec promises, stated over the functions of `Workdays`:
 * what encoding keeps and what it drops, the round trip through the store,
 * where the document id comes from, and what looking a workday up by display
 * date and owner can answer.
 */
module WorkdaysProperties {
  import opened Wrappers
  import opened Text
  import opened Firestore
  import opened Workdays

  /** The tasks as they come back from the store: the same tasks, none of them completed. */
  function ClearCompleted(ts: seq<Task>): (r: seq<Task>)
    ensures |r| == |ts|
  {
    seq(|ts|, i requires 0 <= i < |ts| => ts[i].(completed := false))
  }

  // ---------------------------------------------------------------- tasks

  /** The completion flag does not reach the store: two tasks differing only in it encode alike. */
  lemma CompletedIsNotEncoded(t: Task, completed: bool)
    ensures TaskValue(t.(completed := completed)) == TaskValue(t)
    ensures TaskValue(t).fields["completed"] == BooleanValue(false)
  {
  }

  /** Encoding keeps everything else: tasks that encode alike agree on title, todo and done. */
  lemma TaskEncodingInjective(t: Task, u: Task)
    requires TaskValue(t) == TaskValue(u)
    ensures t.title == u.title && t.todo == u.todo && t.done == u.done
  {
    assert TaskValue(t).fields["title"] == TaskValue(u).fields["title"];
    assert TaskValue(t).fields["todo"] == TaskValue(u).fields["todo"];
    assert TaskValue(t).fields["done"] == TaskValue(u).fields["done"];
  }

  /** Decoding an encoded task list gives the tasks back in order, all not completed. */
  lemma TasksRoundTrip(ts: seq<Task>)
    ensures TasksFromFirestore(TaskListValue(ts).values) == Some(ClearCompleted(ts))
  {
    var vs := TaskListValue(ts).values;
    forall i | 0 <= i < |vs|
      ensures TaskFromFirestore(vs[i]) == Some(ClearCompleted(ts)[i])
    {
    }
    assert AllTasksDecode(vs);
    assert TasksFromFirestore(vs).value == ClearCompleted(ts);
  }

  /** Clearing the flags does not change the encoded list. */
  lemma ClearCompletedEncodesAlike(ts: seq<Task>)
    ensures TaskListValue(ClearCompleted(ts)) == TaskListValue(ts)
  {
    var cs := ClearCompleted(ts);
    forall i | 0 <= i < |ts|
      ensures TaskValues(cs)[i] == TaskValues(ts)[i]
    {
      CompletedIsNotEncoded(ts[i], false);
    }
  }

  // ---------------------------------------------------------------- workday

  /** The create body carries exactly the five workday fields, and no id. */
  lemma EncodedFieldNames(getDisplayDate: int -> string, w: Workday)
    requires DueSeconds(w.dueDate).Some?
    ensures WorkdayForFirestore(getDisplayDate, w).Some?
    ensures WorkdayForFirestore(getDisplayDate, w).value.Keys ==
      {"dueDate", "displayDate", "tasks", "notes", "userId"}
    ensures "id" !in WorkdayForFirestore(getDisplayDate, w).value
  {
  }

  /** The create body does not depend on the workday's id or on the display date it carries. */
  lemma EncodingIgnoresIdAndDisplayDate(getDisplayDate: int -> string, w: Workday, id: Option<string>, displayDate: string)
    ensures WorkdayForFirestore(getDisplayDate, w.(id := id, displayDate := displayDate)) ==
      WorkdayForFirestore(getDisplayDate, w)
  {
  }

  /** A due date given as the decimal text of `n` is stored as the integer `n`, and the display date is formatted from `n` seconds. */
  lemma TextDueDateStored(getDisplayDate: int -> string, w: Workday, n: int)
    requires w.dueDate == DueText(IntText(n))
    ensures WorkdayForFirestore(getDisplayDate, w).Some?
    ensures WorkdayForFirestore(getDisplayDate, w).value["dueDate"] == IntegerValue(n)
    ensures WorkdayForFirestore(getDisplayDate, w).value["displayDate"] == StringValue(getDisplayDate(n * 1000))
  {
    ParseIntText(n);
  }

  /** A due date written as digits, optionally signed, is stored as the digits' value with that sign. */
  lemma {:induction false} DecimalDueDateStored(getDisplayDate: int -> string, w: Workday, sign: string, digits: string)
    requires sign == "" || sign == "+" || sign == "-"
    requires |digits| >= 1 && AllDigits(digits)
    requires w.dueDate == DueText(sign + digits)
    ensures
      var seconds := if sign == "-" then 0 - DigitsValue(digits) as int else DigitsValue(digits) as int;
      WorkdayForFirestore(getDisplayDate, w).Some? &&
      WorkdayForFirestore(getDisplayDate, w).value["dueDate"] == IntegerValue(seconds)
  {
    var seconds := if sign == "-" then 0 - DigitsValue(digits) as int else DigitsValue(digits) as int;
    assert DueSeconds(w.dueDate) == Some(seconds) by {
      ParseIntDigits(digits);
      if sign == "" {
        assert sign + digits == digits;
      }
    }
  }

  /**
   * Round trip through the store: decoding the fields written for `w` under
   * any resource name gives back its notes, owner and tasks (not completed),
   * the display date formatted at save time, the due date as decimal text of
   * the stored seconds, and the id taken from the name.
   */
  lemma WorkdayRoundTrip(getDisplayDate: int -> string, w: Workday, name: string)
    requires DueSeconds(w.dueDate).Some?
    ensures
      var seconds := DueSeconds(w.dueDate).value;
      WorkdayForFirestore(getDisplayDate, w).Some? &&
      WorkdayFromFirestore(name, WorkdayForFirestore(getDisplayDate, w).value) ==
        Some(Workday(
          WorkdayId(name),
          w.userId,
          w.notes,
          getDisplayDate(seconds * 1000),
          DueText(IntText(seconds)),
          ClearCompleted(w.tasks)))
  {
    TasksRoundTrip(w.tasks);
  }

  /**
   * Saving a workday read back from the store writes the very fields it was
   * read from: the text due date re-parses to the stored seconds, the
   * display date is formatted again from them, and the tasks encode alike.
   */
  lemma ReencodeDecoded(getDisplayDate: int -> string, w: Workday, name: string)
    requires DueSeconds(w.dueDate).Some?
    ensures
      var fields := WorkdayForFirestore(getDisplayDate, w).value;
      WorkdayFromFirestore(name, fields).Some? &&
      WorkdayForFirestore(getDisplayDate, WorkdayFromFirestore(name, fields).value) == Some(fields)
  {
    WorkdayRoundTrip(getDisplayDate, w, name);
    ParseIntText(DueSeconds(w.dueDate).value);
    ClearCompletedEncodesAlike(w.tasks);
  }

  // ---------------------------------------------------------------- id

  /** The resource name the store gives a workday document. */
  function ResourceName(project: string, database: string, id: string): string {
    "projects/" + project + "/databases/" + database + "/documents/workdays/" + id
  }

  /** The id read from a workday's resource name is its last segment. */
  lemma {:induction false} IdFromResourceName(project: string, database: string, id: string)
    requires '/' !in project && '/' !in database && '/' !in id
    ensures WorkdayId(ResourceName(project, database, id)) == Some(id)
  {
    var segments := ["projects", project, "databases", database, "documents", "workdays", id];
    assert Join(segments[6..], '/') == id;
    assert Join(segments[5..], '/') == "workdays/" + id;
    assert Join(segments[4..], '/') == "documents/workdays/" + id;
    assert Join(segments[3..], '/') == database + "/documents/workdays/" + id;
    assert Join(segments[2..], '/') == "databases/" + database + "/documents/workdays/" + id;
    assert Join(segments[1..], '/') == project + "/databases/" + database + "/documents/workdays/" + id;
    assert Join(segments, '/') == ResourceName(project, database, id);
    SplitJoin(segments, '/');
  }

  /** The id is whatever sits between the sixth and seventh '/' of the name (or after the sixth). */
  lemma {:induction false} IdIsSeventhSegment(segments: seq<string>)
    requires |segments| >= 7
    requires forall i :: 0 <= i < |segments| ==> '/' !in segments[i]
    ensures WorkdayId(Join(segments, '/')) == Some(segments[6])
  {
    SplitJoin(segments, '/');
  }

  // ---------------------------------------------------------------- query

  /** The fields written for a workday satisfy the query for its display date and owner. */
  lemma SavedWorkdayMatches(getDisplayDate: int -> string, w: Workday)
    requires DueSeconds(w.dueDate).Some?
    ensures
      var date := getDisplayDate(DueSeconds(w.dueDate).value * 1000);
      WhereHolds(StructuredQueryFor(date, w.userId).where, WorkdayForFirestore(getDisplayDate, w).value)
  {
  }

  // ---------------------------------------------------------------- lookup

  /** The documents of the workdays collection, as the reference store holds them. */
  function WorkdayDocuments(store: map<string, seq<Document>>): seq<Document> {
    if "workdays" in store then store["workdays"] else []
  }

  /**
   * Looking a workday up by display date and owner answers "none" exactly
   * when no stored workday document has that display date and owner; a
   * workday it finds has that display date and owner; and when the first
   * such document decodes, the answer is that document's workday.
   */
  lemma LookupAnswer(date: string, userId: string, store: map<string, seq<Document>>)
    ensures
      var answer := SelectWorkday(RunQuery(StructuredQueryFor(date, userId), store));
      && (answer.NoWorkday? <==>
            forall d :: d in WorkdayDocuments(store) ==>
              !(StringField(d.fields, "displayDate") == Some(date) && StringField(d.fields, "userId") == Some(userId)))
      && (answer.Found? ==> answer.workday.displayDate == date && answer.workday.userId == userId)
      && var found := Matching(StructuredQueryFor(date, userId), WorkdayDocuments(store));
         (found != [] ==>
            var first := WorkdayFromFirestore(found[0].name, found[0].fields);
            (first.Some? ==> answer == Found(first.value)) && (first.None? ==> answer == Undecodable))
  {
    var q := StructuredQueryFor(date, userId);
    var docs := WorkdayDocuments(store);
    var found := Matching(q, docs);
    var data := RunQuery(q, store);
    if found == [] {
      assert data == [QueryResult(None)];
    } else {
      assert data[0] == QueryResult(Some(found[0]));
    }
  }

  /** A workday saved under its display date and owner is not reported missing by the lookup. */
  lemma SavedWorkdayIsNotMissing(getDisplayDate: int -> string, w: Workday, name: string, store: map<string, seq<Document>>)
    requires DueSeconds(w.dueDate).Some?
    requires Document(name, WorkdayForFirestore(getDisplayDate, w).value) in WorkdayDocuments(store)
    ensures
      var date := getDisplayDate(DueSeconds(w.dueDate).value * 1000);
      !SelectWorkday(RunQuery(StructuredQueryFor(date, w.userId), store)).NoWorkday?
  {
    var date := getDisplayDate(DueSeconds(w.dueDate).value * 1000);
    SavedWorkdayMatches(getDisplayDate, w);
    LookupAnswer(date, w.userId, store);
  }

  /** The answer `[{}]` that the store gives when nothing matches yields "none", not a failure. */
  lemma EmptyAnswerIsNoWorkday()
    ensures SelectWorkday([QueryResult(None)]) == NoWorkday
  {
  }
}
