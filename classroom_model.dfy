/** The state controller: the record `{classrooms, loading, error}` and the
    effects that wrap each service call. An effect sets `loading` and clears
    `error`, awaits the service, and then either applies the change to its
    own copy of the list or records the error's message; the awaited result
    is a parameter of the effect. */
module ClassroomController {
  import opened ClassroomTypes
  import opened ClassroomSeqs

  /** What an awaited call threw: an `Error` with its message, or a value
      that is not an `Error`. */
  datatype Thrown = ErrorObject(message: string) | OtherValue

  /** How an awaited call ended. */
  datatype Outcome<T> = Returned(value: T) | Threw(thrown: Thrown)

  datatype ClassroomState = ClassroomState(classrooms: seq<Classroom>, loading: bool, error: Option<string>)

  const FetchFallback: string := "Có lỗi xảy ra khi tải danh sách phòng học"
  const AddFallback: string := "Có lỗi xảy ra khi thêm phòng học"
  const UpdateFallback: string := "Có lỗi xảy ra khi cập nhật phòng học"
  const DeleteFallback: string := "Có lỗi xảy ra khi xóa phòng học"

  /** `error instanceof Error ? error.message : fallback` */
  function MessageOf(thrown: Thrown, fallback: string): (m: string)
    ensures thrown.ErrorObject? ==> m == thrown.message
    ensures thrown.OtherValue? ==> m == fallback
  {
    if thrown.ErrorObject? then thrown.message else fallback
  }

  class ClassroomModel {
    var state: ClassroomState

    constructor ()
      ensures state == ClassroomState([], false, None)
    {
      state := ClassroomState([], false, None);
    }

    /** The first update of every effect: loading, no error, same list. */
    method Start()
      modifies this
      ensures state.loading && state.error == None && state.classrooms == old(state).classrooms
    {
      state := state.(loading := true, error := None);
    }

    /** The update of every effect's failure branch. */
    method Fail(thrown: Thrown, fallback: string)
      modifies this
      ensures !state.loading && state.error == Some(MessageOf(thrown, fallback))
      ensures state.classrooms == old(state).classrooms
    {
      state := state.(loading := false, error := Some(MessageOf(thrown, fallback)));
    }

    /** `fetchClassrooms`: replaces the list; an error is recorded and not
        rethrown. */
    method FetchClassrooms(result: Outcome<seq<Classroom>>)
      modifies this
      ensures result.Returned? ==> state == ClassroomState(result.value, false, None)
      ensures result.Threw? ==>
                state == ClassroomState(old(state).classrooms, false, Some(MessageOf(result.thrown, FetchFallback)))
    {
      Start();
      match result
      case Returned(data) =>
        state := state.(classrooms := data, loading := false);
      case Threw(thrown) =>
        Fail(thrown, FetchFallback);
    }

    /** `handleAddClassroom`: appends the record the service returned. */
    method HandleAddClassroom(result: Outcome<Classroom>) returns (rethrown: Option<Thrown>)
      modifies this
      ensures result.Returned? ==>
                rethrown == None && state == ClassroomState(old(state).classrooms + [result.value], false, None)
      ensures result.Threw? ==>
                rethrown == Some(result.thrown) &&
                state == ClassroomState(old(state).classrooms, false, Some(MessageOf(result.thrown, AddFallback)))
    {
      Start();
      match result
      case Returned(newClassroom) =>
        state := state.(classrooms := state.classrooms + [newClassroom], loading := false);
        rethrown := None;
      case Threw(thrown) =>
        Fail(thrown, AddFallback);
        rethrown := Some(thrown);
    }

    /** `handleUpdateClassroom`: every entry with that id becomes the record
        the service returned. */
    method HandleUpdateClassroom(id: string, result: Outcome<Classroom>) returns (rethrown: Option<Thrown>)
      modifies this
      ensures result.Returned? ==>
                rethrown == None &&
                state == ClassroomState(ReplaceById(old(state).classrooms, id, result.value), false, None)
      ensures result.Threw? ==>
                rethrown == Some(result.thrown) &&
                state == ClassroomState(old(state).classrooms, false, Some(MessageOf(result.thrown, UpdateFallback)))
    {
      Start();
      match result
      case Returned(updatedClassroom) =>
        state := state.(classrooms := ReplaceById(state.classrooms, id, updatedClassroom), loading := false);
        rethrown := None;
      case Threw(thrown) =>
        Fail(thrown, UpdateFallback);
        rethrown := Some(thrown);
    }

    /** `handleDeleteClassroom`: every entry with that id goes. */
    method HandleDeleteClassroom(id: string, result: Outcome<()>) returns (rethrown: Option<Thrown>)
      modifies this
      ensures result.Returned? ==>
                rethrown == None && state == ClassroomState(RemoveById(old(state).classrooms, id), false, None)
      ensures result.Threw? ==>
                rethrown == Some(result.thrown) &&
                state == ClassroomState(old(state).classrooms, false, Some(MessageOf(result.thrown, DeleteFallback)))
    {
      Start();
      match result
      case Returned(_) =>
        state := state.(classrooms := RemoveById(state.classrooms, id), loading := false);
        rethrown := None;
      case Threw(thrown) =>
        Fail(thrown, DeleteFallback);
        rethrown := Some(thrown);
    }

    // The reducers: each sets one field and keeps the other two.

    method SetClassrooms(classrooms: seq<Classroom>)
      modifies this
      ensures state == ClassroomState(classrooms, old(state).loading, old(state).error)
    {
      state := state.(classrooms := classrooms);
    }

    method SetLoading(loading: bool)
      modifies this
      ensures state == ClassroomState(old(state).classrooms, loading, old(state).error)
    {
      state := state.(loading := loading);
    }

    method SetError(error: Option<string>)
      modifies this
      ensures state == ClassroomState(old(state).classrooms, old(state).loading, error)
    {
      state := state.(error := error);
    }
  }
}
