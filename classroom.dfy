/** The one record type of the screen and the values that reach the service
    from the form: a classroom, its room type, and a partial set of fields. */
module ClassroomTypes {

  datatype Option<+T> = None | Some(value: T)

  /** The three room types; a stored record always holds one of them. */
  datatype RoomType = Theory | Practice | Hall {
    /** The label the application stores and compares. */
    function Label(): string {
      match this
      case Theory => "Lý thuyết"
      case Practice => "Thực hành"
      case Hall => "Hội trường"
    }
  }

  /** Reads a label back into a room type: only the three labels are accepted. */
  function ParseRoomType(text: string): (r: Option<RoomType>)
    ensures r.Some? ==> r.value.Label() == text
    ensures r.None? ==> forall t: RoomType :: t.Label() != text
  {
    if text == Theory.Label() then Some(Theory)
    else if text == Practice.Label() then Some(Practice)
    else if text == Hall.Label() then Some(Hall)
    else None
  }

  lemma ParseLabel(t: RoomType)
    ensures ParseRoomType(t.Label()) == Some(t)
  {
  }

  /** A stored classroom. `capacity` is an integer; JavaScript's NaN and
      fractions are not modelled. */
  datatype Classroom = Classroom(
    id: string,
    code: string,
    name: string,
    capacity: int,
    roomType: RoomType,
    manager: string)

  /** The fields a caller hands to the service: form values, or a partial
      update. `None` is a field that is absent (undefined); the room type is
      the raw label, which may be any string at run time. */
  datatype ClassroomInput = ClassroomInput(
    code: Option<string>,
    name: Option<string>,
    capacity: Option<int>,
    roomType: Option<string>,
    manager: Option<string>)

  /** The fields of a stored record, as a complete input. */
  function InputOf(c: Classroom): ClassroomInput {
    ClassroomInput(Some(c.code), Some(c.name), Some(c.capacity), Some(c.roomType.Label()), Some(c.manager))
  }
}
