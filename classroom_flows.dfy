/** The controller's effects run against the service: one complete call per
    effect, from the service step to the controller's new state. Each flow
    shows that the controller's copy of the list stays equal to the
    service's list, and that the error it records is the service's message. */
module ClassroomFlows {
  import opened ClassroomTypes
  import opened ClassroomSeqs
  import opened ClassroomService
  import opened ClassroomController

  /** What the controller awaits: a service failure is thrown as an `Error`
      carrying the failure's message. */
  function OutcomeOf<T>(r: Result<T>): (o: Outcome<T>)
    ensures o.Returned? <==> r.Ok?
    ensures r.Ok? ==> o.value == r.value
    ensures r.Err? ==> o.thrown == ErrorObject(r.failure.Message())
  {
    match r
    case Ok(v) => Returned(v)
    case Err(f) => Threw(ErrorObject(f.Message()))
  }

  /** A service failure is never replaced by an effect's fallback text: the
      recorded error names the failure. */
  lemma RecordedErrorNamesFailure<T>(r: Result<T>, fallback: string, g: Failure)
    requires r.Err? && MessageOf(OutcomeOf(r).thrown, fallback) == g.Message()
    ensures g == r.failure
  {
    MessagesIdentifyFailures(g, r.failure);
  }

  // In the source each effect sets `loading` before it awaits the service.
  // The service does not touch the controller's state, so running the
  // service step first and the whole effect after it ends in the same state.

  method FetchFlow(model: ClassroomModel, store: ClassroomStore)
    modifies model
    ensures model.state == ClassroomState(store.classrooms, false, None)
  {
    var data := store.GetClassrooms();
    model.FetchClassrooms(Returned(data));
  }

  method AddFlow(model: ClassroomModel, store: ClassroomStore, input: ClassroomInput, id: string, writeOk: bool)
    returns (rethrown: Option<Thrown>)
    requires model.state.classrooms == store.classrooms
    modifies model, store
    ensures model.state.classrooms == store.classrooms && !model.state.loading
    ensures store.persisted == if AddStep(old(store.classrooms), input, id, writeOk).result.Ok? then store.classrooms else old(store.persisted)
    ensures var s := AddStep(old(store.classrooms), input, id, writeOk);
            store.classrooms == s.classrooms &&
            (s.result.Ok? ==> rethrown == None && model.state.error == None) &&
            (s.result.Err? ==> rethrown == Some(ErrorObject(s.result.failure.Message())) &&
                               model.state.error == Some(s.result.failure.Message()))
  {
    var r := store.AddClassroom(input, id, writeOk);
    rethrown := model.HandleAddClassroom(OutcomeOf(r));
  }

  /** The service replaces the first record with the id and the controller
      every one, so the copies agree only while ids are unique. */
  method UpdateFlow(model: ClassroomModel, store: ClassroomStore, id: string, input: ClassroomInput, writeOk: bool)
    returns (rethrown: Option<Thrown>)
    requires model.state.classrooms == store.classrooms && IdsUnique(store.classrooms)
    modifies model, store
    ensures model.state.classrooms == store.classrooms && !model.state.loading
    ensures store.persisted == if UpdateStep(old(store.classrooms), id, input, writeOk).result.Ok? then store.classrooms else old(store.persisted)
    ensures var s := UpdateStep(old(store.classrooms), id, input, writeOk);
            store.classrooms == s.classrooms &&
            (s.result.Ok? ==> rethrown == None && model.state.error == None) &&
            (s.result.Err? ==> rethrown == Some(ErrorObject(s.result.failure.Message())) &&
                               model.state.error == Some(s.result.failure.Message()))
  {
    ghost var before := store.classrooms;
    var r := store.UpdateClassroom(id, input, writeOk);
    if r.Ok? {
      ReplaceFirstIsReplaceAll(before, id, r.value);
    }
    rethrown := model.HandleUpdateClassroom(id, OutcomeOf(r));
  }

  method DeleteFlow(model: ClassroomModel, store: ClassroomStore, id: string, writeOk: bool)
    returns (rethrown: Option<Thrown>)
    requires model.state.classrooms == store.classrooms
    modifies model, store
    ensures model.state.classrooms == store.classrooms && !model.state.loading
    ensures store.persisted == if DeleteStep(old(store.classrooms), id, writeOk).result.Ok? then store.classrooms else old(store.persisted)
    ensures var s := DeleteStep(old(store.classrooms), id, writeOk);
            store.classrooms == s.classrooms &&
            (s.result.Ok? ==> rethrown == None && model.state.error == None) &&
            (s.result.Err? ==> rethrown == Some(ErrorObject(s.result.failure.Message())) &&
                               model.state.error == Some(s.result.failure.Message()))
  {
    var r := store.DeleteClassroom(id, writeOk);
    rethrown := model.HandleDeleteClassroom(id, OutcomeOf(r));
  }
}
