/** The fixed tables that translate CRM enumeration ids into the platform's
    vocabulary: subject designation, subject display name, grade number and course
    name. Lookups are exact; an id outside a table is an error, never a default. */
module SubjectMapping {
  import opened Wrappers
  import opened Settings
  import opened CrmData

  /** The `ValueError`s the lookups raise. */
  datatype MappingError =
    | SubjectMappingNotFound(id: Scalar)
    | NamedSubjectMappingNotFound(name: string, id: Scalar)
    | UnknownSubjectId(id: Scalar)
    | ClassMappingNotFound(id: Scalar)
    | CourseMappingNotFound(id: Scalar)
  {
    /** The exception's text. */
    function Message(): string
    {
      match this
      case SubjectMappingNotFound(id) => "Маппинг для предмета с ID " + id.Str() + " не найден"
      case NamedSubjectMappingNotFound(name, id) =>
        "Маппинг для предмета '" + name + "' (ID: " + id.Str() + ") не найден"
      case UnknownSubjectId(id) => "Неизвестный ID предмета: " + id.Str()
      case ClassMappingNotFound(id) => "Маппинг для класса с ID " + id.Str() + " не найден"
      case CourseMappingNotFound(id) => "Маппинг для курса с ID " + id.Str() + " не найден"
    }
  }

  // ------------------------------------------------------------------
  // Dict literals

  /** A dict literal `{keys[0]: vals[0], ...}`, built entry by entry, so that with a
      repeated key the later entry replaces the earlier one, as in Python. */
  function Tabulate<V>(keys: seq<int>, vals: seq<V>): (table: map<int, V>)
    requires |keys| == |vals|
    ensures table.Keys == set k | k in keys
    ensures forall k | k in table :: table[k] in vals
    decreases |keys|
  {
    if |keys| == 0 then map[]
    else
      var n := |keys| - 1;
      var prefix := Tabulate(keys[..n], vals[..n]);
      assert keys == keys[..n] + [keys[n]];
      assert vals == vals[..n] + [vals[n]];
      prefix[keys[n] := vals[n]]
  }

  /** An entry whose key does not come again later in the literal is the value the
      key maps to. */
  lemma {:induction false} TabulateLaterWins<V>(keys: seq<int>, vals: seq<V>, i: int)
    requires |keys| == |vals| && 0 <= i < |keys|
    requires forall j | i < j < |keys| :: keys[j] != keys[i]
    ensures keys[i] in Tabulate(keys, vals) && Tabulate(keys, vals)[keys[i]] == vals[i]
    decreases |keys|
  {
    var n := |keys| - 1;
    if i < n {
      TabulateLaterWins(keys[..n], vals[..n], i);
    }
  }

  /** With pairwise distinct keys nothing collapses: one entry per line. */
  lemma TabulateDistinct<V>(keys: seq<int>, vals: seq<V>)
    requires |keys| == |vals| && PairwiseDistinct(keys)
    ensures |Tabulate(keys, vals)| == |keys|
  {
    DistinctSetSize(keys);
    assert Tabulate(keys, vals).Keys == set k | k in keys;
  }

  /** With pairwise distinct keys, looking up the k-th key finds the k-th value. */
  lemma FindDistinct<V>(keys: seq<int>, vals: seq<V>, k: int)
    requires |keys| == |vals| && PairwiseDistinct(keys) && 0 <= k < |keys|
    ensures Find(Tabulate(keys, vals), SInt(keys[k])) == Some(vals[k])
  {
    TabulateLaterWins(keys, vals, k);
  }

  /** A sequence of pairwise distinct values has as many distinct values as elements. */
  lemma {:induction false} DistinctSetSize(s: seq<int>)
    requires PairwiseDistinct(s)
    ensures |set x | x in s| == |s|
  {
    if |s| > 0 {
      assert PairwiseDistinct(s[1..]) by {
        forall i, j | 0 <= i < j < |s[1..]| ensures s[1..][i] != s[1..][j] {
          assert s[1..][i] == s[i + 1] && s[1..][j] == s[j + 1];
        }
      }
      DistinctSetSize(s[1..]);
      assert (set x | x in s) == {s[0]} + set x | x in s[1..];
      assert s[0] !in set x | x in s[1..];
    }
  }

  /** A sequence has at least as many elements as distinct values, and fewer
      distinct values when one repeats. */
  lemma {:induction false} SetOfSeqSize(s: seq<int>)
    ensures |set x | x in s| <= |s|
    ensures !PairwiseDistinct(s) ==> |set x | x in s| < |s|
  {
    if |s| > 0 {
      SetOfSeqSize(s[1..]);
      assert (set x | x in s) == {s[0]} + set x | x in s[1..];
      if s[0] in s[1..] {
        assert s[0] in set x | x in s[1..];
      } else if PairwiseDistinct(s[1..]) {
        forall i, j | 0 <= i < j < |s| ensures s[i] != s[j] {
          if i == 0 {
            assert s[j] == s[1..][j - 1];
          } else {
            assert s[i] == s[1..][i - 1] && s[j] == s[1..][j - 1];
          }
        }
      }
    }
  }

  /** `key in table` followed by `table[key]`. Table keys are integers, so a string
      or `null` id is never found. */
  function Find<V>(table: map<int, V>, id: Scalar): (r: Option<V>)
    ensures r.Some? <==> id.SInt? && id.i in table
    ensures r.Some? ==> r.value == table[id.i]
  {
    if id.SInt? && id.i in table then Some(table[id.i]) else None
  }

  // ------------------------------------------------------------------
  // Subjects

  /** The platform's subject designations, in the order of `SubjectIds.Ids()`. */
  const SubjectDesignationList: seq<string> :=
    ["social", "english", "history", "russian", "physics", "chemistry", "literature",
     "maths", "maths-base", "biology", "informatics", "maths2", "biology2",
     "middle_math", "maths-oge"]

  /** The subjects' display names, in the same order. */
  const SubjectNameList: seq<string> :=
    ["Обществознание", "Английский язык", "История", "Русский", "Физика", "Химия",
     "Литература", "Профиль Маша", "База матем", "Биология Женя", "Информатика",
     "Профиль Саша", "Биология Геля", "Математика 7-8 класс", "Математика ОГЭ"]

  /** `get_subject_mapping()`. */
  function SubjectMappingTable(ids: SubjectIds): (table: map<int, string>)
    ensures table.Keys == set x | x in ids.Ids()
  {
    Tabulate(ids.Ids(), SubjectDesignationList)
  }

  /** The display-name table inside `get_subject_name_by_id`. */
  function SubjectNameTable(ids: SubjectIds): (table: map<int, string>)
    ensures table.Keys == set x | x in ids.Ids()
  {
    Tabulate(ids.Ids(), SubjectNameList)
  }

  /** `get_subject_name_by_id`: defined exactly on the configured subject ids. */
  function GetSubjectNameById(ids: SubjectIds, id: Scalar): (r: Result<string, MappingError>)
    ensures r.Success? <==> id.SInt? && id.i in ids.Ids()
    ensures r.Success? ==> r.value in SubjectNameList
    ensures r.Failure? ==> r.error == UnknownSubjectId(id)
  {
    match Find(SubjectNameTable(ids), id)
    case Some(name) => Success(name)
    case None => Failure(UnknownSubjectId(id))
  }

  /** `map_subject_to_designation`: defined exactly on the configured subject ids.
      For an unknown id both ways out of the `try` block raise `ValueError`, and the
      `except` clause replaces either with the id-only error. */
  function MapSubjectToDesignation(ids: SubjectIds, id: Scalar): (r: Result<string, MappingError>)
    ensures r.Success? <==> id.SInt? && id.i in ids.Ids()
    ensures r.Success? ==> r.value in SubjectDesignationList
    ensures r.Failure? ==> r.error == SubjectMappingNotFound(id)
  {
    var mapping := SubjectMappingTable(ids);
    match Find(mapping, id)
    case Some(designation) => Success(designation)
    case None =>
      var raisedInTry :=
        match GetSubjectNameById(ids, id)
        case Success(name) => NamedSubjectMappingNotFound(name, id)
        case Failure(e) => e;
      assert raisedInTry == UnknownSubjectId(id);
      Failure(SubjectMappingNotFound(id))
  }

  /** With distinct ids the designation table has 15 entries and the k-th subject
      id maps to the k-th designation. */
  lemma SubjectDesignations(ids: SubjectIds)
    requires PairwiseDistinct(ids.Ids())
    ensures |SubjectMappingTable(ids)| == 15
    ensures forall k | 0 <= k < 15 ::
      MapSubjectToDesignation(ids, SInt(ids.Ids()[k])) == Success(SubjectDesignationList[k])
  {
    var s := ids.Ids();
    TabulateDistinct(s, SubjectDesignationList);
    forall k | 0 <= k < 15
      ensures MapSubjectToDesignation(ids, SInt(s[k])) == Success(SubjectDesignationList[k])
    {
      FindDistinct(s, SubjectDesignationList, k);
    }
  }

  /** With distinct ids the display-name table has 15 entries and the k-th subject
      id maps to the k-th name. */
  lemma SubjectNames(ids: SubjectIds)
    requires PairwiseDistinct(ids.Ids())
    ensures |SubjectNameTable(ids)| == 15
    ensures forall k | 0 <= k < 15 ::
      GetSubjectNameById(ids, SInt(ids.Ids()[k])) == Success(SubjectNameList[k])
  {
    var s := ids.Ids();
    TabulateDistinct(s, SubjectNameList);
    forall k | 0 <= k < 15
      ensures GetSubjectNameById(ids, SInt(s[k])) == Success(SubjectNameList[k])
    {
      FindDistinct(s, SubjectNameList, k);
    }
  }

  /** Whatever the configuration, the subject given last in the table keeps its
      designation: an earlier subject configured with the same id is shadowed. */
  lemma LastSubjectWins(ids: SubjectIds)
    ensures MapSubjectToDesignation(ids, SInt(ids.mathOge)) == Success("maths-oge")
  {
    TabulateLaterWins(ids.Ids(), SubjectDesignationList, 14);
  }

  /** An unknown subject id raises with the id-only message. */
  lemma UnknownSubjectMessage(ids: SubjectIds, id: Scalar)
    requires !(id.SInt? && id.i in ids.Ids())
    ensures MapSubjectToDesignation(ids, id).Failure?
    ensures MapSubjectToDesignation(ids, id).error.Message()
            == "Маппинг для предмета с ID " + id.Str() + " не найден"
  {
  }

  /** Two subjects configured with the same id collapse into one table entry. */
  lemma DuplicateSubjectIdCollapses(ids: SubjectIds)
    requires !PairwiseDistinct(ids.Ids())
    ensures |SubjectMappingTable(ids)| < 15
  {
    SetOfSeqSize(ids.Ids());
    assert SubjectMappingTable(ids).Keys == set x | x in ids.Ids();
  }

  // ------------------------------------------------------------------
  // Grades

  /** The grade numbers, in the order of `ClassIds.Ids()`. "Younger than 9th grade"
      is compressed to 8 and "university" and "not a student" to 11. */
  const ClassNumberList: seq<int> := [6, 7, 8, 9, 10, 11, 8, 11, 11]

  /** `get_class_mapping()`. */
  function ClassMappingTable(ids: ClassIds): (table: map<int, int>)
    ensures table.Keys == set x | x in ids.Ids()
  {
    Tabulate(ids.Ids(), ClassNumberList)
  }

  /** `map_class_to_number`: defined exactly on the configured grade ids, always a
      grade between 6 and 11. */
  function MapClassToNumber(ids: ClassIds, id: Scalar): (r: Result<int, MappingError>)
    ensures r.Success? <==> id.SInt? && id.i in ids.Ids()
    ensures r.Success? ==> 6 <= r.value <= 11
    ensures r.Failure? ==> r.error == ClassMappingNotFound(id)
  {
    match Find(ClassMappingTable(ids), id)
    case Some(n) => Success(n)
    case None => Failure(ClassMappingNotFound(id))
  }

  /** With distinct ids the grade table has 9 entries and the k-th grade id maps to
      the k-th number. */
  lemma ClassNumbers(ids: ClassIds)
    requires PairwiseDistinct(ids.Ids())
    ensures |ClassMappingTable(ids)| == 9
    ensures forall k | 0 <= k < 9 ::
      MapClassToNumber(ids, SInt(ids.Ids()[k])) == Success(ClassNumberList[k])
  {
    var s := ids.Ids();
    TabulateDistinct(s, ClassNumberList);
    forall k | 0 <= k < 9
      ensures MapClassToNumber(ids, SInt(s[k])) == Success(ClassNumberList[k])
    {
      FindDistinct(s, ClassNumberList, k);
    }
  }

  /** The three compressed categories: "younger than 9th grade" is 8, "university"
      and "not a student" are 11. */
  lemma CompressedGrades(ids: ClassIds)
    requires PairwiseDistinct(ids.Ids())
    ensures MapClassToNumber(ids, SInt(ids.younger9)) == Success(8)
    ensures MapClassToNumber(ids, SInt(ids.university)) == Success(11)
    ensures MapClassToNumber(ids, SInt(ids.notStudent)) == Success(11)
  {
    ClassNumbers(ids);
    var s := ids.Ids();
    assert ids.younger9 == s[6] && ids.university == s[7] && ids.notStudent == s[8];
  }

  /** An unknown grade id raises with its id in the message. */
  lemma UnknownClassMessage(ids: ClassIds, id: Scalar)
    requires !(id.SInt? && id.i in ids.Ids())
    ensures MapClassToNumber(ids, id).Failure?
    ensures MapClassToNumber(ids, id).error.Message()
            == "Маппинг для класса с ID " + id.Str() + " не найден"
  {
  }

  // ------------------------------------------------------------------
  // Courses

  /** The course names, in the order of `CourseIds.Ids()`. */
  const CourseNameList: seq<string> :=
    ["Все сам", "Комфортик", "На максималках", "Полугодовой ОГЭ", "Нормис", "Имба",
     "Спецкурс", "Ну норм", "Сын маминой подруги", "Проходка на бюджет", "Шик блеск",
     "Стандарт", "Самостоятельный", "Платинум"]

  /** `get_course_name_mapping()`. */
  function CourseNameTable(ids: CourseIds): (table: map<int, string>)
    ensures table.Keys == set x | x in ids.Ids()
  {
    Tabulate(ids.Ids(), CourseNameList)
  }

  /** `map_course_to_name`: defined exactly on the 14 configured course ids. */
  function MapCourseToName(ids: CourseIds, id: Scalar): (r: Result<string, MappingError>)
    ensures r.Success? <==> id.SInt? && id.i in ids.Ids()
    ensures r.Success? ==> r.value in CourseNameList
    ensures r.Failure? ==> r.error == CourseMappingNotFound(id)
  {
    match Find(CourseNameTable(ids), id)
    case Some(name) => Success(name)
    case None => Failure(CourseMappingNotFound(id))
  }

  /** With distinct ids the course table has 14 entries and the k-th course id maps
      to the k-th name. */
  lemma CourseNames(ids: CourseIds)
    requires PairwiseDistinct(ids.Ids())
    ensures |CourseNameTable(ids)| == 14
    ensures forall k | 0 <= k < 14 ::
      MapCourseToName(ids, SInt(ids.Ids()[k])) == Success(CourseNameList[k])
  {
    var s := ids.Ids();
    TabulateDistinct(s, CourseNameList);
    forall k | 0 <= k < 14
      ensures MapCourseToName(ids, SInt(s[k])) == Success(CourseNameList[k])
    {
      FindDistinct(s, CourseNameList, k);
    }
  }

  /** An unknown course id raises with its id in the message. */
  lemma UnknownCourseMessage(ids: CourseIds, id: Scalar)
    requires !(id.SInt? && id.i in ids.Ids())
    ensures MapCourseToName(ids, id).Failure?
    ensures MapCourseToName(ids, id).error.Message()
            == "Маппинг для курса с ID " + id.Str() + " не найден"
  {
  }
}
