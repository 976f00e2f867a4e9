/** The domain service: validation, the duplicate-name check, and the add,
    update and delete steps that read the cached list, change it and write
    it back through the store. Each step is first stated as a function from
    the list before to its result and the list after; the class
    `ClassroomStore` runs the same steps on its fields. */
module ClassroomService {
  import opened ClassroomTypes
  import opened ClassroomSeqs

  /** Every error the service raises, each with its fixed message. */
  datatype Failure =
    | CodeMissing | CodeTooLong
    | NameMissing | NameTooLong
    | ManagerMissing
    | CapacityMissing | CapacityNotPositive
    | TypeMissing | TypeInvalid
    | DuplicateName
    | NotFound
    | CapacityGuard
    | StorageWriteFailed
  {
    function Message(): string {
      match this
      case CodeMissing => "Vui lòng nhập mã phòng"
      case CodeTooLong => "Mã phòng không được vượt quá 10 ký tự"
      case NameMissing => "Vui lòng nhập tên phòng"
      case NameTooLong => "Tên phòng không được vượt quá 50 ký tự"
      case ManagerMissing => "Vui lòng chọn người phụ trách"
      case CapacityMissing => "Vui lòng nhập số chỗ ngồi"
      case CapacityNotPositive => "Số chỗ ngồi phải lớn hơn 0"
      case TypeMissing => "Vui lòng chọn loại phòng"
      case TypeInvalid => "Loại phòng không hợp lệ"
      case DuplicateName => "Tên phòng đã tồn tại"
      case NotFound => "Không tìm thấy phòng học"
      case CapacityGuard => "Không thể xóa phòng có sức chứa từ 30 chỗ ngồi trở lên"
      case StorageWriteFailed => "Có lỗi xảy ra khi lưu dữ liệu vào localStorage"
    }

    predicate IsValidation() {
      !(DuplicateName? || NotFound? || CapacityGuard? || StorageWriteFailed?)
    }

    /** The field a validation failure is about. */
    function FieldOf(): Field
      requires IsValidation()
    {
      if CodeMissing? || CodeTooLong? then CodeField
      else if NameMissing? || NameTooLong? then NameField
      else if ManagerMissing? then ManagerField
      else if CapacityMissing? || CapacityNotPositive? then CapacityField
      else TypeField
    }
  }

  datatype Result<T> = Ok(value: T) | Err(failure: Failure)

  /** The fields in the order validation looks at them. */
  datatype Field = CodeField | NameField | ManagerField | CapacityField | TypeField

  function Rank(f: Field): nat {
    match f
    case CodeField => 0
    case NameField => 1
    case ManagerField => 2
    case CapacityField => 3
    case TypeField => 4
  }

  /** What a field must satisfy: present and non-empty, within its length
      limit, a capacity of at least 1, one of the three room-type labels. */
  predicate FieldOk(c: ClassroomInput, f: Field) {
    match f
    case CodeField => c.code.Some? && 1 <= |c.code.value| <= 10
    case NameField => c.name.Some? && 1 <= |c.name.value| <= 50
    case ManagerField => c.manager.Some? && c.manager.value != ""
    case CapacityField => c.capacity.Some? && c.capacity.value >= 1
    case TypeField => c.roomType.Some? && ParseRoomType(c.roomType.value).Some?
  }

  predicate IsValid(c: ClassroomInput) {
    FieldOk(c, CodeField) && FieldOk(c, NameField) && FieldOk(c, ManagerField) &&
    FieldOk(c, CapacityField) && FieldOk(c, TypeField)
  }

  /** The input that makes validation report `f`. A capacity of 0 counts as
      missing, because the source tests it for falsiness first; only a
      negative one is "not greater than 0". */
  predicate Explains(c: ClassroomInput, f: Failure) {
    match f
    case CodeMissing => c.code.None? || c.code.value == ""
    case CodeTooLong => c.code.Some? && |c.code.value| > 10
    case NameMissing => c.name.None? || c.name.value == ""
    case NameTooLong => c.name.Some? && |c.name.value| > 50
    case ManagerMissing => c.manager.None? || c.manager.value == ""
    case CapacityMissing => c.capacity.None? || c.capacity.value == 0
    case CapacityNotPositive => c.capacity.Some? && c.capacity.value < 0
    case TypeMissing => c.roomType.None? || c.roomType.value == ""
    case TypeInvalid => c.roomType.Some? && c.roomType.value != "" && ParseRoomType(c.roomType.value).None?
    case _ => false
  }

  /** `validateClassroom`: `None` for a valid input, otherwise the failure of
      the first field, in the order code, name, manager, capacity, type,
      that does not hold. */
  function Validate(c: ClassroomInput): (r: Option<Failure>)
    ensures r.None? <==> IsValid(c)
    ensures r.Some? ==> r.value.IsValidation() && Explains(c, r.value) && !FieldOk(c, r.value.FieldOf())
    ensures r.Some? ==> forall f: Field :: Rank(f) < Rank(r.value.FieldOf()) ==> FieldOk(c, f)
  {
    if c.code.None? || c.code.value == "" then Some(CodeMissing)
    else if |c.code.value| > 10 then Some(CodeTooLong)
    else if c.name.None? || c.name.value == "" then Some(NameMissing)
    else if |c.name.value| > 50 then Some(NameTooLong)
    else if c.manager.None? || c.manager.value == "" then Some(ManagerMissing)
    else if c.capacity.None? || c.capacity.value == 0 then Some(CapacityMissing)
    else if c.capacity.value < 1 then Some(CapacityNotPositive)
    else if c.roomType.None? || c.roomType.value == "" then Some(TypeMissing)
    else if ParseRoomType(c.roomType.value).None? then Some(TypeInvalid)
    else None
  }

  /** Capacity 0 is reported as missing, never as "not greater than 0". */
  lemma ZeroCapacityIsMissing(c: ClassroomInput)
    requires FieldOk(c, CodeField) && FieldOk(c, NameField) && FieldOk(c, ManagerField)
    requires c.capacity == Some(0)
    ensures Validate(c) == Some(CapacityMissing)
  {
  }

  lemma NegativeCapacityIsNotPositive(c: ClassroomInput)
    requires FieldOk(c, CodeField) && FieldOk(c, NameField) && FieldOk(c, ManagerField)
    requires c.capacity.Some? && c.capacity.value < 0
    ensures Validate(c) == Some(CapacityNotPositive)
  {
  }

  /** No two failures share a message. */
  lemma MessagesIdentifyFailures(f: Failure, g: Failure)
    requires f.Message() == g.Message()
    ensures f == g
  {
    match f
    case CodeMissing =>
    case CodeTooLong =>
    case NameMissing =>
    case NameTooLong =>
    case ManagerMissing =>
    case CapacityMissing =>
    case CapacityNotPositive =>
    case TypeMissing =>
    case TypeInvalid =>
    case DuplicateName =>
    case NotFound =>
    case CapacityGuard =>
    case StorageWriteFailed =>
  }

  /** Whether a stored record takes part in the duplicate test: an absent or
      empty `excludeId` excludes nobody. */
  predicate Competes(c: Classroom, excludeId: Option<string>) {
    excludeId.None? || excludeId.value == "" || c.id != excludeId.value
  }

  /** `isDuplicateName`: some record other than the excluded one has exactly
      this name. */
  function IsDuplicateName(list: seq<Classroom>, name: string, excludeId: Option<string>): (r: bool)
    ensures r <==> exists i :: 0 <= i < |list| && list[i].name == name && Competes(list[i], excludeId)
  {
    if list == [] then false
    else if list[0].name == name && Competes(list[0], excludeId) then true
    else
      var rest := IsDuplicateName(list[1..], name, excludeId);
      assert forall i :: 0 < i < |list| ==> list[i] == list[1..][i - 1];
      rest
  }

  /** The record `addClassroom` builds: the input's fields and the new id. */
  function NewRecord(input: ClassroomInput, id: string): (r: Classroom)
    requires IsValid(input)
    ensures InputOf(r) == input && r.id == id
  {
    Classroom(id, input.code.value, input.name.value, input.capacity.value,
              ParseRoomType(input.roomType.value).value, input.manager.value)
  }

  /** `a` when it is present, `b` otherwise: one field of an object spread. */
  function Given<T>(a: Option<T>, b: Option<T>): Option<T> {
    if a.Some? then a else b
  }

  /** `{...current, ...input, id}`: the fields present in `input` replace
      those of `current`, and the id is always the one given. */
  function Overlay(current: Classroom, input: ClassroomInput, id: string): (r: Classroom)
    requires input.roomType.Some? ==> ParseRoomType(input.roomType.value).Some?
    ensures r.id == id
    ensures var was := InputOf(current);
            InputOf(r) == ClassroomInput(Given(input.code, was.code), Given(input.name, was.name),
                                         Given(input.capacity, was.capacity), Given(input.roomType, was.roomType),
                                         Given(input.manager, was.manager))
  {
    Classroom(
      id,
      if input.code.Some? then input.code.value else current.code,
      if input.name.Some? then input.name.value else current.name,
      if input.capacity.Some? then input.capacity.value else current.capacity,
      if input.roomType.Some? then ParseRoomType(input.roomType.value).value else current.roomType,
      if input.manager.Some? then input.manager.value else current.manager)
  }

  /** An input that passes validation carries every field, so the overlay
      keeps nothing of the old record. */
  lemma OverlayOfValidInput(current: Classroom, input: ClassroomInput, id: string)
    requires IsValid(input)
    ensures Overlay(current, input, id) == NewRecord(input, id)
  {
  }

  /** The result of one service call and the list it leaves behind. */
  datatype Step<T> = Step(result: Result<T>, classrooms: seq<Classroom>)

  /** `saveClassrooms`: the write either succeeds and the new list becomes
      current, or fails and the old one stays. */
  function SaveStep<T>(list: seq<Classroom>, newList: seq<Classroom>, value: T, writeOk: bool): (s: Step<T>)
    ensures s.result.Ok? <==> writeOk
    ensures s.classrooms == if writeOk then newList else list
    ensures s.result.Ok? ==> s.result.value == value
    ensures s.result.Err? ==> s.result.failure == StorageWriteFailed
  {
    if writeOk then Step(Ok(value), newList) else Step(Err(StorageWriteFailed), list)
  }

  /** `addClassroom`, with the random id passed in. */
  function AddStep(list: seq<Classroom>, input: ClassroomInput, id: string, writeOk: bool): (s: Step<Classroom>)
    ensures Validate(input).Some? ==> s == Step(Err(Validate(input).value), list)
    ensures IsValid(input) && IsDuplicateName(list, input.name.value, None) ==> s == Step(Err(DuplicateName), list)
    ensures s.result.Ok? <==> IsValid(input) && !IsDuplicateName(list, input.name.value, None) && writeOk
    ensures s.result.Err? ==> s.classrooms == list
    ensures s.result.Err? && IsValid(input) && !IsDuplicateName(list, input.name.value, None) ==>
              s.result.failure == StorageWriteFailed
    ensures s.result.Ok? ==> s.result.value == NewRecord(input, id) && s.classrooms == list + [s.result.value]
  {
    var validationError := Validate(input);
    if validationError.Some? then Step(Err(validationError.value), list)
    else if IsDuplicateName(list, input.name.value, None) then Step(Err(DuplicateName), list)
    else
      var newClassroom := NewRecord(input, id);
      SaveStep(list, list + [newClassroom], newClassroom, writeOk)
  }

  /** `updateClassroom`: not-found first, then validation of the partial
      input as given, then the duplicate test excluding `id`. */
  function UpdateStep(list: seq<Classroom>, id: string, input: ClassroomInput, writeOk: bool): (s: Step<Classroom>)
    ensures !HasId(list, id) ==> s == Step(Err(NotFound), list)
    ensures HasId(list, id) && Validate(input).Some? ==> s == Step(Err(Validate(input).value), list)
    ensures HasId(list, id) && IsValid(input) && IsDuplicateName(list, input.name.value, Some(id)) ==>
              s == Step(Err(DuplicateName), list)
    ensures s.result.Ok? <==>
              HasId(list, id) && IsValid(input) && !IsDuplicateName(list, input.name.value, Some(id)) && writeOk
    ensures s.result.Err? ==> s.classrooms == list
    ensures s.result.Err? && HasId(list, id) && IsValid(input) && !IsDuplicateName(list, input.name.value, Some(id)) ==>
              s.result.failure == StorageWriteFailed
    ensures s.result.Ok? ==>
              var k := FindIndex(list, id);
              s.result.value == Overlay(list[k], input, id) &&
              |s.classrooms| == |list| && s.classrooms[k] == s.result.value &&
              forall i :: 0 <= i < |list| && i != k ==> s.classrooms[i] == list[i]
  {
    var index := FindIndex(list, id);
    if index == -1 then Step(Err(NotFound), list)
    else
      var validationError := Validate(input);
      if validationError.Some? then Step(Err(validationError.value), list)
      else if IsDuplicateName(list, input.name.value, Some(id)) then Step(Err(DuplicateName), list)
      else
        var updatedClassroom := Overlay(list[index], input, id);
        SaveStep(list, list[index := updatedClassroom], updatedClassroom, writeOk)
  }

  /** `deleteClassroom`: not-found, then the capacity guard on the first
      record with that id, then every record with that id is removed. */
  function DeleteStep(list: seq<Classroom>, id: string, writeOk: bool): (s: Step<()>)
    ensures !HasId(list, id) ==> s == Step(Err(NotFound), list)
    ensures HasId(list, id) && list[FindIndex(list, id)].capacity >= 30 ==> s == Step(Err(CapacityGuard), list)
    ensures s.result.Ok? <==> HasId(list, id) && list[FindIndex(list, id)].capacity < 30 && writeOk
    ensures s.result.Err? ==> s.classrooms == list
    ensures s.result.Err? && HasId(list, id) && list[FindIndex(list, id)].capacity < 30 ==>
              s.result.failure == StorageWriteFailed
    ensures s.result.Ok? ==> s.classrooms == RemoveById(list, id)
  {
    var index := FindIndex(list, id);
    if index == -1 then Step(Err(NotFound), list)
    else if list[index].capacity >= 30 then Step(Err(CapacityGuard), list)
    else SaveStep(list, RemoveById(list, id), (), writeOk)
  }

  // Properties of the steps: the invariants of the stored list, and what
  // the caller can rely on.

  /** A successful add stores exactly the fields given, under the new id, as
      the last record. */
  lemma AddStoresInput(list: seq<Classroom>, input: ClassroomInput, id: string)
    requires IsValid(input) && !IsDuplicateName(list, input.name.value, None)
    ensures var s := AddStep(list, input, id, true);
            s.result.Ok? && s.result.value.id == id && InputOf(s.result.value) == input &&
            |s.classrooms| == |list| + 1 && s.classrooms[|list|] == s.result.value
  {
  }

  lemma {:induction false} AddKeepsNamesUnique(list: seq<Classroom>, input: ClassroomInput, id: string, writeOk: bool)
    requires NamesUnique(list)
    ensures NamesUnique(AddStep(list, input, id, writeOk).classrooms)
  {
    var s := AddStep(list, input, id, writeOk);
    if s.result.Ok? {
      var r := s.result.value;
      forall i, j | 0 <= i < j < |s.classrooms| ensures NameOf(s.classrooms[i]) != NameOf(s.classrooms[j]) {
        if j == |list| {
          assert s.classrooms[i] == list[i] && s.classrooms[j] == r;
          assert !(list[i].name == input.name.value && Competes(list[i], None));
        } else {
          assert s.classrooms[i] == list[i] && s.classrooms[j] == list[j];
        }
      }
    }
  }

  /** The id is taken as given, so ids stay unique only if it is unused. */
  lemma {:induction false} AddKeepsIdsUnique(list: seq<Classroom>, input: ClassroomInput, id: string, writeOk: bool)
    requires IdsUnique(list) && !HasId(list, id)
    ensures IdsUnique(AddStep(list, input, id, writeOk).classrooms)
  {
    var s := AddStep(list, input, id, writeOk);
    if s.result.Ok? {
      forall i, j | 0 <= i < j < |s.classrooms| ensures IdOf(s.classrooms[i]) != IdOf(s.classrooms[j]) {
        assert s.classrooms[i] == list[i];
        if j < |list| {
          assert s.classrooms[j] == list[j];
        }
      }
    }
  }

  /** A record may keep its own name on update, provided its id is not the
      empty string. */
  lemma UpdateKeepingOwnName(list: seq<Classroom>, id: string, input: ClassroomInput)
    requires NamesUnique(list) && HasId(list, id) && id != ""
    requires IsValid(input) && input.name == Some(list[FindIndex(list, id)].name)
    ensures UpdateStep(list, id, input, true).result.Ok?
  {
    var k := FindIndex(list, id);
    forall i | 0 <= i < |list| && i != k ensures list[i].name != input.name.value {
      assert NameOf(list[i]) != NameOf(list[k]);
    }
  }

  /** An empty id excludes nobody, so the record's own name counts against it. */
  lemma UpdateWithEmptyIdRejectsOwnName(list: seq<Classroom>, input: ClassroomInput)
    requires HasId(list, "") && IsValid(input)
    requires input.name == Some(list[FindIndex(list, "")].name)
    ensures UpdateStep(list, "", input, true) == Step(Err(DuplicateName), list)
  {
    var k := FindIndex(list, "");
    assert list[k].name == input.name.value && Competes(list[k], Some(""));
  }

  /** The id of the updated position stays the one it had. */
  lemma {:induction false} UpdateKeepsIdsUnique(list: seq<Classroom>, id: string, input: ClassroomInput, writeOk: bool)
    requires IdsUnique(list)
    ensures IdsUnique(UpdateStep(list, id, input, writeOk).classrooms)
  {
    var s := UpdateStep(list, id, input, writeOk);
    if s.result.Ok? {
      var k := FindIndex(list, id);
      forall i, j | 0 <= i < j < |s.classrooms| ensures IdOf(s.classrooms[i]) != IdOf(s.classrooms[j]) {
        assert IdOf(s.classrooms[i]) == IdOf(list[i]) && IdOf(s.classrooms[j]) == IdOf(list[j]);
      }
    }
  }

  lemma {:induction false} UpdateKeepsNamesUnique(list: seq<Classroom>, id: string, input: ClassroomInput, writeOk: bool)
    requires IdsUnique(list) && NamesUnique(list)
    ensures NamesUnique(UpdateStep(list, id, input, writeOk).classrooms)
  {
    var s := UpdateStep(list, id, input, writeOk);
    if s.result.Ok? {
      var k := FindIndex(list, id);
      var n := input.name.value;
      assert s.classrooms[k].name == n;
      forall i | 0 <= i < |list| && i != k ensures s.classrooms[i].name != n {
        assert s.classrooms[i] == list[i];
        assert IdOf(list[i]) != IdOf(list[k]);
        assert !(list[i].name == n && Competes(list[i], Some(id)));
      }
      forall i, j | 0 <= i < j < |s.classrooms| ensures NameOf(s.classrooms[i]) != NameOf(s.classrooms[j]) {
        if i != k && j != k {
          assert s.classrooms[i] == list[i] && s.classrooms[j] == list[j];
        }
      }
    }
  }

  /** With a repeated id, the duplicate test skips every record with that id,
      but only the first is replaced: updating the first to the name of the
      second succeeds and leaves two records with one name. */
  lemma UpdateOnRepeatedIdDuplicatesName(a: Classroom, b: Classroom, input: ClassroomInput)
    requires a.id == b.id && a.id != "" && a.name != b.name
    requires IsValid(input) && input.name == Some(b.name)
    ensures NamesUnique([a, b])
    ensures var s := UpdateStep([a, b], a.id, input, true);
            s.result.Ok? && !NamesUnique(s.classrooms)
  {
    assert !IsDuplicateName([a, b], b.name, Some(a.id));
    var s := UpdateStep([a, b], a.id, input, true);
    assert NameOf(s.classrooms[0]) == NameOf(s.classrooms[1]);
  }

  /** Updating a record stores the input's fields under its id: the old
      record contributes nothing once the input passed validation. */
  lemma UpdateStoresInput(list: seq<Classroom>, id: string, input: ClassroomInput, writeOk: bool)
    requires UpdateStep(list, id, input, writeOk).result.Ok?
    ensures var r := UpdateStep(list, id, input, writeOk).result.value;
            r.id == id && InputOf(r) == input
  {
    var k := FindIndex(list, id);
    OverlayOfValidInput(list[k], input, id);
  }

  lemma DeleteKeepsUnique(list: seq<Classroom>, id: string, writeOk: bool)
    ensures IdsUnique(list) ==> IdsUnique(DeleteStep(list, id, writeOk).classrooms)
    ensures NamesUnique(list) ==> NamesUnique(DeleteStep(list, id, writeOk).classrooms)
  {
    var s := DeleteStep(list, id, writeOk);
    if s.result.Ok? {
      if IdsUnique(list) { SubsequenceKeepsUnique(s.classrooms, list, IdOf); }
      if NamesUnique(list) { SubsequenceKeepsUnique(s.classrooms, list, NameOf); }
    }
  }

  /** With unique ids, removing by the id of position `k` removes only that
      position. */
  lemma {:induction false} RemoveUniqueId(list: seq<Classroom>, k: int)
    requires IdsUnique(list) && 0 <= k < |list|
    ensures RemoveById(list, list[k].id) == list[..k] + list[k + 1..]
  {
    var id := list[k].id;
    var keep := (c: Classroom) => c.id != id;
    var head, tail := list[..k], list[k + 1..];
    assert list == head + ([list[k]] + tail);
    forall i | 0 <= i < |head| ensures head[i].id != id {
      assert IdOf(list[i]) != IdOf(list[k]);
    }
    forall i | 0 <= i < |tail| ensures tail[i].id != id {
      assert tail[i] == list[k + 1 + i];
      assert IdOf(list[k]) != IdOf(list[k + 1 + i]);
    }
    FilterConcat(head, [list[k]] + tail, keep);
    FilterConcat([list[k]], tail, keep);
    FilterKeepsAll(head, keep);
    FilterKeepsAll(tail, keep);
    assert Filter([list[k]], keep) == [];
  }

  /** With unique ids a successful delete removes exactly the one record the
      guard looked at, and it had fewer than 30 seats. */
  lemma DeleteRemovesGuardedRecord(list: seq<Classroom>, id: string, writeOk: bool)
    requires IdsUnique(list)
    requires DeleteStep(list, id, writeOk).result.Ok?
    ensures var k := FindIndex(list, id);
            list[k].capacity < 30 &&
            DeleteStep(list, id, writeOk).classrooms == list[..k] + list[k + 1..]
  {
    var s := DeleteStep(list, id, writeOk);
    var k := FindIndex(list, id);
    assert HasId(list, id) && s.classrooms == RemoveById(list, id);
    assert list[k].id == id;
    RemoveUniqueId(list, k);
  }

  /** The guard checks only the first record with the id, but every record
      with it is removed: with a repeated id a record of 30 seats or more
      can be deleted. */
  lemma DeleteGuardMissesRepeatedId(a: Classroom, b: Classroom)
    requires a.id == b.id && a.capacity < 30 && b.capacity >= 30
    ensures var s := DeleteStep([a, b], a.id, true);
            s.result.Ok? && b !in s.classrooms
  {
  }

  /** Create "Room A", fail to create a second "Room A", delete the first:
      the list is empty again. */
  lemma CreateDuplicateDeleteScenario(id: string)
    ensures var first := ClassroomInput(Some("P101"), Some("Room A"), Some(25), Some(Theory.Label()), Some("A"));
            var second := ClassroomInput(Some("P102"), Some("Room A"), Some(10), Some(Hall.Label()), Some("B"));
            var s1 := AddStep([], first, id, true);
            var s2 := AddStep(s1.classrooms, second, id + "x", true);
            var s3 := DeleteStep(s2.classrooms, id, true);
            s1.result.Ok? && s1.result.value.capacity == 25 &&
            s2 == Step(Err(DuplicateName), s1.classrooms) &&
            s3.result.Ok? && s3.classrooms == []
  {
    var first := ClassroomInput(Some("P101"), Some("Room A"), Some(25), Some(Theory.Label()), Some("A"));
    var s1 := AddStep([], first, id, true);
    assert s1.classrooms[0].name == "Room A";
  }

  /** The service's state: the module-level list and the durable slot it
      mirrors. */
  class ClassroomStore {
    var classrooms: seq<Classroom>
    var persisted: seq<Classroom>

    /** The cache and the durable slot hold the same snapshot. */
    predicate Consistent()
      reads this
    {
      persisted == classrooms
    }

    /** The list loaded from the slot at start-up. */
    constructor (stored: seq<Classroom>)
      ensures classrooms == stored && persisted == stored && Consistent()
    {
      classrooms := stored;
      persisted := stored;
    }

    /** `getClassrooms`: the current list, unmodified. */
    method GetClassrooms() returns (r: seq<Classroom>)
      ensures r == classrooms
    {
      r := classrooms;
    }

    /** `saveClassrooms`: the cache is replaced only after the write
        succeeds; a failed write leaves both as they were. */
    method SaveClassrooms(newClassrooms: seq<Classroom>, writeOk: bool) returns (r: Result<()>)
      modifies this
      ensures var s := SaveStep(old(classrooms), newClassrooms, (), writeOk);
              r == s.result && classrooms == s.classrooms
      ensures persisted == if writeOk then newClassrooms else old(persisted)
    {
      if !writeOk {
        return Err(StorageWriteFailed);
      }
      persisted := newClassrooms;
      classrooms := newClassrooms;
      return Ok(());
    }

    method AddClassroom(input: ClassroomInput, id: string, writeOk: bool) returns (r: Result<Classroom>)
      modifies this
      ensures var s := AddStep(old(classrooms), input, id, writeOk);
              r == s.result && classrooms == s.classrooms
      ensures persisted == if r.Ok? then classrooms else old(persisted)
      ensures old(Consistent()) ==> Consistent()
    {
      var validationError := Validate(input);
      if validationError.Some? {
        return Err(validationError.value);
      }
      if IsDuplicateName(classrooms, input.name.value, None) {
        return Err(DuplicateName);
      }
      var newClassroom := NewRecord(input, id);
      var updatedClassrooms := classrooms + [newClassroom];
      var saved := SaveClassrooms(updatedClassrooms, writeOk);
      if saved.Err? {
        return Err(saved.failure);
      }
      return Ok(newClassroom);
    }

    method UpdateClassroom(id: string, input: ClassroomInput, writeOk: bool) returns (r: Result<Classroom>)
      modifies this
      ensures var s := UpdateStep(old(classrooms), id, input, writeOk);
              r == s.result && classrooms == s.classrooms
      ensures persisted == if r.Ok? then classrooms else old(persisted)
      ensures old(Consistent()) ==> Consistent()
    {
      var index := FindIndex(classrooms, id);
      if index == -1 {
        return Err(NotFound);
      }
      var validationError := Validate(input);
      if validationError.Some? {
        return Err(validationError.value);
      }
      if IsDuplicateName(classrooms, input.name.value, Some(id)) {
        return Err(DuplicateName);
      }
      var updatedClassroom := Overlay(classrooms[index], input, id);
      // a fresh copy of the list, written at `index`
      var updatedClassrooms := classrooms[index := updatedClassroom];
      var saved := SaveClassrooms(updatedClassrooms, writeOk);
      if saved.Err? {
        return Err(saved.failure);
      }
      return Ok(updatedClassroom);
    }

    method DeleteClassroom(id: string, writeOk: bool) returns (r: Result<()>)
      modifies this
      ensures var s := DeleteStep(old(classrooms), id, writeOk);
              r == s.result && classrooms == s.classrooms
      ensures persisted == if r.Ok? then classrooms else old(persisted)
      ensures old(Consistent()) ==> Consistent()
    {
      var index := FindIndex(classrooms, id);
      if index == -1 {
        return Err(NotFound);
      }
      var classroom := classrooms[index];
      if classroom.capacity >= 30 {
        return Err(CapacityGuard);
      }
      var updatedClassrooms := RemoveById(classrooms, id);
      r := SaveClassrooms(updatedClassrooms, writeOk);
    }
  }
}
