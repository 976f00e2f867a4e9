/** The list screen: the search-and-type filter over the controller's list,
    and the add/edit modal driven by `showModal`, `handleModalOk` and
    `handleModalCancel`. */
module ClassroomListScreen {
  import opened ClassroomTypes
  import opened ClassroomSeqs

  predicate StartsWith(s: string, prefix: string) {
    |prefix| <= |s| && s[..|prefix|] == prefix
  }

  /** `part` is the slice of `text` that starts at `i`. */
  predicate OccursAt(text: string, part: string, i: int) {
    0 <= i <= |text| - |part| && text[i..i + |part|] == part
  }

  /** JavaScript's `includes` on strings: true exactly when `part` occurs at
      some position of `text`. */
  function Includes(text: string, part: string): (r: bool)
    ensures r <==> exists i :: OccursAt(text, part, i)
    decreases |text|
  {
    if StartsWith(text, part) then
      assert OccursAt(text, part, 0);
      true
    else if text == [] then false
    else
      var rest := Includes(text[1..], part);
      assert (exists i :: OccursAt(text, part, i)) <==> exists j :: OccursAt(text[1..], part, j) by {
        forall i | OccursAt(text, part, i) ensures OccursAt(text[1..], part, i - 1) {
          assert text[1..][i - 1..i - 1 + |part|] == text[i..i + |part|];
        }
        forall j | OccursAt(text[1..], part, j) ensures OccursAt(text, part, j + 1) {
          assert text[1..][j..j + |part|] == text[j + 1..j + 1 + |part|];
        }
      }
      rest
  }

  /** The room-type select: every type, or one of them. */
  datatype TypeFilter = AllTypes | OnlyType(roomType: RoomType)

  /** The filter callback. `lower` is String.prototype.toLowerCase, which
      the model leaves uninterpreted. */
  function Matches(c: Classroom, searchText: string, filter: TypeFilter, lower: string -> string): (r: bool)
    ensures r <==> ((exists i :: OccursAt(lower(c.code), lower(searchText), i)) ||
                    (exists i :: OccursAt(lower(c.name), lower(searchText), i))) &&
                   (filter.AllTypes? || c.roomType == filter.roomType)
  {
    (Includes(lower(c.code), lower(searchText)) || Includes(lower(c.name), lower(searchText))) &&
    (filter.AllTypes? || c.roomType == filter.roomType)
  }

  /** `filteredClassrooms`: the records that match, in the list's order. */
  function FilteredClassrooms(classrooms: seq<Classroom>, searchText: string, filter: TypeFilter,
                              lower: string -> string): (r: seq<Classroom>)
    ensures IsSubsequence(r, classrooms)
    ensures forall c :: c in r <==> c in classrooms && Matches(c, searchText, filter, lower)
    ensures forall c :: multiset(r)[c] == if Matches(c, searchText, filter, lower) then multiset(classrooms)[c] else 0
  {
    Filter(classrooms, (c: Classroom) => Matches(c, searchText, filter, lower))
  }

  /** No search text and every type: the whole list. */
  lemma NoCriteriaShowsAll(classrooms: seq<Classroom>, lower: string -> string)
    requires lower("") == ""
    ensures FilteredClassrooms(classrooms, "", AllTypes, lower) == classrooms
  {
    var keep := (c: Classroom) => Matches(c, "", AllTypes, lower);
    forall i | 0 <= i < |classrooms| ensures keep(classrooms[i]) {
      assert StartsWith(lower(classrooms[i].code), "");
    }
    FilterKeepsAll(classrooms, keep);
  }

  /** The modal's three states. */
  datatype EditSession = Closed | CreatingNew | EditingExisting(record: Classroom)

  /** The service call a submit makes. */
  datatype Submission = AddRequest(values: ClassroomInput) | UpdateRequest(id: string, values: ClassroomInput)

  /** Submit updates the record being edited, under its id, and adds
      otherwise. */
  function SubmissionFor(editing: Option<Classroom>, values: ClassroomInput): (r: Submission)
    ensures r.values == values
    ensures r.UpdateRequest? <==> editing.Some?
    ensures r.UpdateRequest? ==> r.id == editing.value.id
  {
    match editing
    case Some(record) => UpdateRequest(record.id, values)
    case None => AddRequest(values)
  }

  /** The modal's state variables of the list component. */
  class ClassroomList {
    var isModalVisible: bool
    var editingClassroom: Option<Classroom>

    /** A record is only ever being edited in an open modal. */
    predicate Valid()
      reads this
    {
      editingClassroom.Some? ==> isModalVisible
    }

    function Session(): EditSession
      reads this
      requires Valid()
    {
      if !isModalVisible then Closed
      else if editingClassroom.None? then CreatingNew
      else EditingExisting(editingClassroom.value)
    }

    constructor ()
      ensures Valid() && Session() == Closed
    {
      isModalVisible := false;
      editingClassroom := None;
    }

    /** `showModal(record)` edits that record; `showModal()` creates. */
    method ShowModal(record: Option<Classroom>)
      modifies this
      ensures isModalVisible && editingClassroom == record
      ensures Valid() && Session() == if record.Some? then EditingExisting(record.value) else CreatingNew
    {
      editingClassroom := record;
      isModalVisible := true;
    }

    method HandleAddClick()
      modifies this
      ensures isModalVisible && editingClassroom == None
      ensures Valid() && Session() == CreatingNew
    {
      ShowModal(None);
    }

    /** `handleModalOk`. `values` is `None` when form validation rejects the
        input; `submitSucceeded` is whether the awaited add or update
        returned without throwing. Returns the call that was made. The modal
        closes only after a successful call. */
    method HandleModalOk(values: Option<ClassroomInput>, submitSucceeded: bool) returns (submitted: Option<Submission>)
      modifies this
      ensures submitted == if values.Some? then Some(SubmissionFor(old(editingClassroom), values.value)) else None
      ensures values.Some? && submitSucceeded ==> !isModalVisible && editingClassroom == None
      ensures !(values.Some? && submitSucceeded) ==>
                isModalVisible == old(isModalVisible) && editingClassroom == old(editingClassroom)
      ensures old(Valid()) ==> Valid()
    {
      if values.None? {
        return None;
      }
      submitted := Some(SubmissionFor(editingClassroom, values.value));
      if !submitSucceeded {
        return;
      }
      isModalVisible := false;
      editingClassroom := None;
    }

    /** `handleModalCancel`: closed, from any state. */
    method HandleModalCancel()
      modifies this
      ensures !isModalVisible && editingClassroom == None
      ensures Valid() && Session() == Closed
    {
      isModalVisible := false;
      editingClassroom := None;
    }
  }
}
