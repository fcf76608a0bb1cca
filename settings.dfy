/** The enumeration and field ids the service is configured with. They are read
    from the environment at start-up and are required, with no defaults, so the
    model takes them as a read-only parameter. */
module Settings {

  /** The enum ids of the lead's subject field, one per subject. */
  datatype SubjectIds = SubjectIds(
    obshchestvo: int, english: int, history: int, russian: int, physics: int,
    chemistry: int, literature: int, mathProfMasha: int, mathBase: int,
    biologyZhenya: int, informatics: int, mathProfSasha: int, biologyGelya: int,
    math78: int, mathOge: int)
  {
    /** The ids in the order the subject tables list them. */
    function Ids(): seq<int>
    {
      [obshchestvo, english, history, russian, physics, chemistry, literature,
       mathProfMasha, mathBase, biologyZhenya, informatics, mathProfSasha,
       biologyGelya, math78, mathOge]
    }
  }

  /** The enum ids of the lead's grade field. */
  datatype ClassIds = ClassIds(
    class56: int, class7: int, class8: int, class9: int, class10: int, class11: int,
    younger9: int, university: int, notStudent: int)
  {
    /** The ids in the order the grade table lists them. */
    function Ids(): seq<int>
    {
      [class56, class7, class8, class9, class10, class11, younger9, university, notStudent]
    }
  }

  /** The enum ids of the lead's purchased-course field. */
  datatype CourseIds = CourseIds(
    allMyself: int, comfortik: int, naMaksimalkah: int, polugodovoyOge: int,
    normis: int, imba: int, spetskurs: int, nuNorm: int, synMaminoyPodrugi: int,
    prohodkaNaByudzhet: int, shikBlesk: int, standart: int, samostoyatelnyy: int,
    platinum: int)
  {
    /** The ids in the order the course table lists them. */
    function Ids(): seq<int>
    {
      [allMyself, comfortik, naMaksimalkah, polugodovoyOge, normis, imba, spetskurs,
       nuNorm, synMaminoyPodrugi, prohodkaNaByudzhet, shikBlesk, standart,
       samostoyatelnyy, platinum]
    }
  }

  /** The ids of the four lead custom fields the service reads. */
  datatype LeadFieldIds = LeadFieldIds(
    classField: int, subjectsField: int, directionField: int, purchasedCourseField: int)

  datatype Config = Config(
    subjects: SubjectIds, classes: ClassIds, courses: CourseIds, leadFields: LeadFieldIds)
  {
    /** Every table's ids are pairwise distinct, as a correct deployment configures them. */
    predicate Distinct()
    {
      PairwiseDistinct(subjects.Ids()) && PairwiseDistinct(classes.Ids())
      && PairwiseDistinct(courses.Ids())
    }
  }

  predicate PairwiseDistinct(s: seq<int>)
  {
    forall i, j | 0 <= i < j < |s| :: s[i] != s[j]
  }
}
