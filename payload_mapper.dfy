/** The order builder: validates the client record in a fixed order, pairs the
    invoice lines with the lead's subjects by position, splits the contact's name
    and assembles the payload the platform receives. */
module PayloadMapper {
  import opened Wrappers
  import opened PyText
  import opened Settings
  import opened CrmData
  import opened PlatformModels
  import opened SubjectMapping

  /** An invoice line as the builder reads it: a dict whose keys may be missing. */
  datatype OrderItem = OrderItem(description: Option<string>, unitPrice: Option<int>, quantity: Option<int>)
  {
    /** `str(item.get("description", ""))`. */
    function Description(): string { description.GetOr("") }

    /** `int(item.get("unit_price", 0))`. */
    function Cost(): int { unitPrice.GetOr(0) }

    /** `int(item.get("quantity", 1))`: here a missing quantity means one month. */
    function Months(): int { quantity.GetOr(1) }
  }

  /** The errors the builder raises. All are `ValueError`s except the two marked. */
  datatype MapperError =
    | MissingClassEnumId
    | MissingSubjectsEnumIds
    | MissingPhone
    | MissingEmail
    | LookupFailed(cause: MappingError)
    | ClassIdIsList        // `TypeError`: a list is not a dict key
    | BlankName            // `IndexError`: `parts[0]` of an empty split
    | CountMismatch(items: int, subjects: int)
    | NoCourses
  {
    predicate IsValueError()
    {
      !ClassIdIsList? && !BlankName?
    }

    /** The exception's text. */
    function Message(): string
    {
      match this
      case MissingClassEnumId => "Отсутствует поле 'class_enum_id' в данных клиента"
      case MissingSubjectsEnumIds => "Отсутствует поле 'subjects_enum_ids' в данных клиента"
      case MissingPhone => "Отсутствует телефон контакта"
      case MissingEmail => "Отсутствует email контакта"
      case LookupFailed(cause) => cause.Message()
      case ClassIdIsList => "unhashable type: 'list'"
      case BlankName => "list index out of range"
      case CountMismatch(n, m) =>
        "Количество позиций счета (" + Decimal(n) + ") не совпадает с количеством предметов ("
        + Decimal(m) + ")"
      case NoCourses => "Не удалось создать ни одного курса из позиций счета"
    }
  }

  // ------------------------------------------------------------------
  // Courses

  /** The course an item becomes once its subject is known. */
  function CourseOf(item: OrderItem, designation: string): Course
  {
    Course(item.Description(), designation, item.Cost(), item.Months())
  }

  /** An item that becomes a course: one with a non-empty description. */
  predicate Kept(item: OrderItem)
  {
    item.Description() != ""
  }

  /** A subject id the designation table knows. */
  predicate KnownSubject(ids: SubjectIds, id: Scalar)
  {
    id.SInt? && id.i in ids.Ids()
  }

  /** The courses of the first `n` pairs, as the loop of `_build_courses` has built
      them after `n` turns: items without a description are passed over without
      looking up their subject; the first unknown subject of a kept item stops it. */
  function CoursesOf(ids: SubjectIds, items: seq<OrderItem>, subjects: seq<Scalar>, n: nat)
    : Result<seq<Course>, MappingError>
    requires n <= |items| == |subjects|
  {
    if n == 0 then Success([])
    else
      match CoursesOf(ids, items, subjects, n - 1)
      case Failure(e) => Failure(e)
      case Success(cs) =>
        if !Kept(items[n - 1]) then Success(cs)
        else
          match MapSubjectToDesignation(ids, subjects[n - 1])
          case Failure(e) => Failure(e)
          case Success(d) => Success(cs + [CourseOf(items[n - 1], d)])
  }

  /** The indices among the first `n` whose items are kept, in increasing order. */
  function Survivors(items: seq<OrderItem>, n: nat): (s: seq<nat>)
    requires n <= |items|
    ensures |s| <= n
    ensures forall k | 0 <= k < |s| :: s[k] < n && Kept(items[s[k]])
    ensures forall k, l | 0 <= k < l < |s| :: s[k] < s[l]
    ensures forall i | 0 <= i < n && Kept(items[i]) :: i in s
  {
    if n == 0 then []
    else Survivors(items, n - 1) + (if Kept(items[n - 1]) then [n - 1] else [])
  }

  /** Without a kept item there are no survivors. */
  lemma {:induction false} NoSurvivors(items: seq<OrderItem>, n: nat)
    requires n <= |items|
    requires forall i | 0 <= i < n :: !Kept(items[i])
    ensures Survivors(items, n) == []
  {
    if n > 0 {
      NoSurvivors(items, n - 1);
    }
  }

  /** Once the pairs have failed they stay failed with the same error. */
  lemma {:induction false} CoursesOfFailureStays(ids: SubjectIds, items: seq<OrderItem>, subjects: seq<Scalar>, n: nat, m: nat)
    requires n <= m <= |items| == |subjects|
    requires CoursesOf(ids, items, subjects, n).Failure?
    ensures CoursesOf(ids, items, subjects, m) == CoursesOf(ids, items, subjects, n)
  {
    if m > n {
      CoursesOfFailureStays(ids, items, subjects, n, m - 1);
    }
  }

  /** The pairs succeed exactly when every kept item's subject is known: an
      unknown subject next to an item without a description does no harm. */
  lemma {:induction false} CoursesOfSucceeds(ids: SubjectIds, items: seq<OrderItem>, subjects: seq<Scalar>, n: nat)
    requires n <= |items| == |subjects|
    ensures CoursesOf(ids, items, subjects, n).Success? <==>
              forall i | 0 <= i < n && Kept(items[i]) :: KnownSubject(ids, subjects[i])
  {
    if n > 0 {
      CoursesOfSucceeds(ids, items, subjects, n - 1);
    }
  }

  /** When the pairs fail, the error names the subject of the first kept item whose
      subject is unknown. */
  lemma {:induction false} CoursesOfFails(ids: SubjectIds, items: seq<OrderItem>, subjects: seq<Scalar>, n: nat)
    requires n <= |items| == |subjects|
    requires CoursesOf(ids, items, subjects, n).Failure?
    ensures exists i | 0 <= i < n ::
              && Kept(items[i]) && !KnownSubject(ids, subjects[i])
              && (forall j | 0 <= j < i && Kept(items[j]) :: KnownSubject(ids, subjects[j]))
              && CoursesOf(ids, items, subjects, n).error == SubjectMappingNotFound(subjects[i])
  {
    var prev := CoursesOf(ids, items, subjects, n - 1);
    if prev.Failure? {
      CoursesOfFails(ids, items, subjects, n - 1);
    } else {
      CoursesOfSucceeds(ids, items, subjects, n - 1);
      assert Kept(items[n - 1]) && !KnownSubject(ids, subjects[n - 1]);
    }
  }

  /** On success the k-th course is built from the k-th kept item and its own
      subject: order is kept and nothing is invented or dropped. */
  lemma {:induction false} CoursesOfContents(ids: SubjectIds, items: seq<OrderItem>, subjects: seq<Scalar>, n: nat)
    requires n <= |items| == |subjects|
    requires CoursesOf(ids, items, subjects, n).Success?
    ensures var cs := CoursesOf(ids, items, subjects, n).value;
            var s := Survivors(items, n);
            && |cs| == |s|
            && forall k | 0 <= k < |cs| ::
                 && KnownSubject(ids, subjects[s[k]])
                 && cs[k] == CourseOf(items[s[k]], MapSubjectToDesignation(ids, subjects[s[k]]).value)
  {
    if n > 0 {
      CoursesOfContents(ids, items, subjects, n - 1);
    }
  }

  /** `_build_courses` as a value: the length check first, then the pairs, then the
      check that at least one course was built. */
  function BuiltCourses(ids: SubjectIds, items: seq<OrderItem>, subjects: seq<Scalar>)
    : (r: Result<seq<Course>, MapperError>)
    ensures |items| != |subjects| ==> r == Failure(CountMismatch(|items|, |subjects|))
    ensures r.Success? ==> 0 < |r.value| <= |items|
  {
    if |items| != |subjects| then Failure(CountMismatch(|items|, |subjects|))
    else
      match CoursesOf(ids, items, subjects, |items|)
      case Failure(e) => Failure(LookupFailed(e))
      case Success(cs) =>
        CoursesOfContents(ids, items, subjects, |items|);
        if cs == [] then Failure(NoCourses) else Success(cs)
  }

  /** With equal lengths and all kept items' subjects known, the courses are built
      unless no item is kept. */
  lemma BuiltCoursesNoCourses(ids: SubjectIds, items: seq<OrderItem>, subjects: seq<Scalar>)
    requires |items| == |subjects|
    requires forall i | 0 <= i < |items| && Kept(items[i]) :: KnownSubject(ids, subjects[i])
    ensures BuiltCourses(ids, items, subjects).Success? <==> exists i | 0 <= i < |items| :: Kept(items[i])
  {
    CoursesOfSucceeds(ids, items, subjects, |items|);
    CoursesOfContents(ids, items, subjects, |items|);
    var s := Survivors(items, |items|);
    if exists i | 0 <= i < |items| :: Kept(items[i]) {
      var i :| 0 <= i < |items| && Kept(items[i]);
      assert i in s;
      assert |CoursesOf(ids, items, subjects, |items|).value| > 0;
    } else {
      NoSurvivors(items, |items|);
    }
  }

  /** `_build_courses`: check the lengths, then walk the pairs, skipping items
      without a description, and fail when nothing was built. */
  method BuildCourses(ids: SubjectIds, items: seq<OrderItem>, subjects: seq<Scalar>)
    returns (r: Result<seq<Course>, MapperError>)
    ensures r == BuiltCourses(ids, items, subjects)
  {
    if |items| != |subjects| {
      return Failure(CountMismatch(|items|, |subjects|));
    }
    var courses: seq<Course> := [];
    for idx := 0 to |items|
      invariant CoursesOf(ids, items, subjects, idx) == Success(courses)
    {
      var item := items[idx];
      var description := item.Description();
      var unitPrice := item.Cost();
      var quantity := item.Months();
      if description == "" {
        continue;
      }
      var designation := MapSubjectToDesignation(ids, subjects[idx]);
      if designation.Failure? {
        CoursesOfFailureStays(ids, items, subjects, idx + 1, |items|);
        return Failure(LookupFailed(designation.error));
      }
      courses := courses + [Course(description, designation.value, unitPrice, quantity)];
    }
    if courses == [] {
      return Failure(NoCourses);
    }
    return Success(courses);
  }

  // ------------------------------------------------------------------
  // Name

  /** The stand-in first name for a contact without one. */
  const DefaultFirstName := "Клиент"

  /** `_parse_name`: an empty name gives the stand-in; otherwise the first word of
      the stripped name and the rest after the whitespace that follows it. A name
      made only of whitespace has no first word, and `parts[0]` fails. */
  function ParseName(fullName: string): (r: Result<(string, Option<string>), MapperError>)
    ensures fullName == "" ==> r == Success((DefaultFirstName, None))
    ensures r.Failure? <==> fullName != "" && AllSpace(fullName)
    ensures r.Failure? ==> r.error == BlankName
    ensures r.Success? && fullName != "" ==>
              var (first, last) := r.value;
              && first != "" && NoSpace(first)
              && (last.Some? ==> last.value != "" && !IsSpace(last.value[0]))
  {
    if fullName == "" then Success((DefaultFirstName, None))
    else
      var parts := SplitFirstWord(Strip(fullName));
      StripAllSpace(fullName);
      if |parts| == 0 then Failure(BlankName)
      else Success((parts[0], if |parts| > 1 then Some(parts[1]) else None))
  }

  /** Stripping leaves nothing exactly when there is nothing but whitespace. */
  lemma StripAllSpace(s: string)
    ensures AllSpace(Strip(s)) <==> AllSpace(s)
  {
    var r := Strip(s);
    var a, b :| 0 <= a <= b <= |s| && r == s[a..b] && AllSpace(s[..a]) && AllSpace(s[b..]);
    ThreeSlices(s, a, b);
    AllSpaceConcat(s[..a], s[a..b]);
    AllSpaceConcat(s[..a] + s[a..b], s[b..]);
  }

  lemma ThreeSlices(s: string, a: int, b: int)
    requires 0 <= a <= b <= |s|
    ensures s == s[..a] + s[a..b] + s[b..]
  {
  }

  lemma AllSpaceConcat(x: string, y: string)
    ensures AllSpace(x + y) <==> AllSpace(x) && AllSpace(y)
  {
    if AllSpace(x + y) {
      assert forall i | 0 <= i < |x| :: x[i] == (x + y)[i];
      assert forall i | 0 <= i < |y| :: y[i] == (x + y)[|x| + i];
    }
  }

  /** The parts put back together give the stripped name: the first name, then a
      whitespace run, then the last name. */
  lemma ParseNameJoin(fullName: string)
    requires fullName != "" && ParseName(fullName).Success?
    ensures var (first, last) := ParseName(fullName).value;
            && (last.None? ==> Strip(fullName) == first)
            && (last.Some? ==> exists w :: Strip(fullName) == first + w + last.value
                                 && w != "" && AllSpace(w))
  {
    StripAllSpace(fullName);
    StrippedSplit(Strip(fullName));
  }

  /** `split(maxsplit=1)` of a string with no whitespace at either end. */
  lemma StrippedSplit(t: string)
    requires |t| > 0 && !IsSpace(t[0]) && !IsSpace(t[|t| - 1])
    ensures var parts := SplitFirstWord(t);
            && |parts| > 0
            && (|parts| == 1 ==> t == parts[0])
            && (|parts| == 2 ==> exists w :: t == parts[0] + w + parts[1] && w != "" && AllSpace(w))
  {
    SplitNoLeading(t);
    var k := FirstSpace(t);
    var u := t[k..];
    var n := LeadingSpaces(u);
    if n == |u| {
      OneWordCase(t, k, u);
    } else {
      TwoWordsCase(t, k, u, n);
      var w := u[..n];
      assert SplitFirstWord(t) == [t[..k], u[n..]];
      assert t == SplitFirstWord(t)[0] + w + SplitFirstWord(t)[1];
    }
  }

  /** With only whitespace after the first word, and none at the end, the first
      word is the whole string. */
  lemma OneWordCase(t: string, k: nat, u: string)
    requires |t| > 0 && !IsSpace(t[|t| - 1]) && k <= |t| && u == t[k..]
    requires forall i | 0 <= i < |u| :: IsSpace(u[i])
    ensures t == t[..k]
  {
    assert t == t[..k] + u;
    TrailingSpaceEmpty(t, t[..k], u);
  }

  /** A whitespace run that starts at the first whitespace character and is followed
      by text separates the first word from that text. */
  lemma TwoWordsCase(t: string, k: nat, u: string, n: nat)
    requires k <= |t| && u == t[k..] && n < |u|
    requires k < |t| ==> IsSpace(t[k])
    requires forall i | 0 <= i < n :: IsSpace(u[i])
    requires !IsSpace(u[n])
    ensures t == t[..k] + u[..n] + u[n..]
    ensures u[..n] != "" && AllSpace(u[..n])
  {
    assert u == u[..n] + u[n..];
    assert t == t[..k] + u;
    assert u[0] == t[k];
    assert forall i | 0 <= i < n :: u[..n][i] == u[i];
  }

  /** For a string that does not start with whitespace, `split(maxsplit=1)` cuts
      at its first whitespace character and skips the run there. */
  lemma SplitNoLeading(t: string)
    requires |t| > 0 && !IsSpace(t[0])
    ensures var k := FirstSpace(t);
            var u := t[k..];
            var rest := u[LeadingSpaces(u)..];
            SplitFirstWord(t) == if rest == "" then [t[..k]] else [t[..k], rest]
  {
    assert LeadingSpaces(t) == 0;
    assert t[0..] == t;
  }

  /** A string that does not start with whitespace has no leading whitespace piece. */
  lemma LeadingSpaceEmpty(t: string, a: string, rest: string)
    requires t == a + rest && AllSpace(a)
    requires |t| > 0 ==> !IsSpace(t[0])
    ensures a == "" && t == rest
  {
  }

  /** A string that does not end with whitespace has no trailing whitespace piece. */
  lemma TrailingSpaceEmpty(t: string, rest: string, b: string)
    requires t == rest + b && AllSpace(b)
    requires |t| > 0 ==> !IsSpace(t[|t| - 1])
    ensures b == "" && t == rest
  {
  }

  /** A first name without whitespace, a space and a last name that starts and ends
      with a non-space read back as that first and last name. */
  lemma ParseNameRoundTrip(first: string, last: string)
    requires first != "" && NoSpace(first)
    requires last != "" && !IsSpace(last[0]) && !IsSpace(last[|last| - 1])
    ensures ParseName(first + " " + last) == Success((first, Some(last)))
  {
    var s := first + " " + last;
    StripUnchanged(s);
    assert s[..|first|] == first;
    assert s[|first|..] == " " + last;
    FirstWordAndRest(first, " ", last);
  }

  /** A string that starts and ends with a non-space strips to itself. */
  lemma StripUnchanged(s: string)
    requires |s| > 0 && !IsSpace(s[0]) && !IsSpace(s[|s| - 1])
    ensures Strip(s) == s
  {
  }

  /** `(x + w + y).split(maxsplit=1)` for a word `x`, whitespace `w` and a rest `y`
      that starts with a non-space. */
  lemma FirstWordAndRest(x: string, w: string, y: string)
    requires x != "" && NoSpace(x) && w != "" && AllSpace(w) && y != "" && !IsSpace(y[0])
    ensures SplitFirstWord(x + w + y) == [x, y]
  {
    var s := x + w + y;
    assert LeadingSpaces(s) == 0;
    assert s[0..] == s;
    FirstSpaceOf(x, w + y);
    assert s == x + (w + y);
    var u := s[|x|..];
    assert u == w + y;
    LeadingSpacesOf(w, y);
  }

  lemma {:induction false} FirstSpaceOf(x: string, y: string)
    requires NoSpace(x) && |y| > 0 && IsSpace(y[0])
    ensures FirstSpace(x + y) == |x|
  {
    if |x| > 0 {
      assert (x + y)[1..] == x[1..] + y;
      FirstSpaceOf(x[1..], y);
    }
  }

  lemma {:induction false} LeadingSpacesOf(w: string, y: string)
    requires AllSpace(w) && |y| > 0 && !IsSpace(y[0])
    ensures LeadingSpaces(w + y) == |w|
  {
    if |w| > 0 {
      assert (w + y)[1..] == w[1..] + y;
      LeadingSpacesOf(w[1..], y);
    } else {
      assert w + y == y;
    }
  }

  // ------------------------------------------------------------------
  // Payload

  /** Python truthiness of an optional string. */
  predicate GivenText(s: Option<string>)
  {
    s.Some? && s.value != ""
  }

  /** Python truthiness of an optional flattened value. */
  predicate GivenFlat(f: Option<Flat>)
  {
    f.Some? && f.value.Truthy()
  }

  /** The four presence checks of `map_to_platform_payload`, all passed. */
  predicate Validated(cd: ClientData)
  {
    GivenFlat(cd.classEnumId) && cd.subjectsEnumIds != []
    && GivenText(cd.contactPhone) && GivenText(cd.contactEmail)
  }

  /** `map_class_to_number(class_enum_id)` for the flattened grade value: a list is
      not hashable, so only a single value is looked up. */
  function ClassNumber(ids: ClassIds, f: Flat): (r: Result<int, MapperError>)
    ensures r.Success? <==> f.Single? && f.v.SInt? && f.v.i in ids.Ids()
    ensures r.Success? ==> 6 <= r.value <= 11
    ensures f.Single? && r.Failure? ==> r.error == LookupFailed(ClassMappingNotFound(f.v))
  {
    match f
    case Multi(_) => Failure(ClassIdIsList)
    case Single(v) =>
      match MapClassToNumber(ids, v)
      case Success(n) => Success(n)
      case Failure(e) => Failure(LookupFailed(e))
  }

  /** `map_to_platform_payload`: the checks in their order, the first failing one
      deciding the error; then the grade, the name and the courses, each of which
      can fail; the payload copies the amount, the email and the phone unchanged. */
  method MapToPlatformPayload(cfg: Config, items: seq<OrderItem>, amount: int, cd: ClientData)
    returns (r: Result<PlatformPayload, MapperError>)
    ensures !GivenFlat(cd.classEnumId) <==> r == Failure(MissingClassEnumId)
    ensures GivenFlat(cd.classEnumId) ==>
              (cd.subjectsEnumIds == [] <==> r == Failure(MissingSubjectsEnumIds))
    ensures GivenFlat(cd.classEnumId) && cd.subjectsEnumIds != [] ==>
              (!GivenText(cd.contactPhone) <==> r == Failure(MissingPhone))
    ensures GivenFlat(cd.classEnumId) && cd.subjectsEnumIds != [] && GivenText(cd.contactPhone) ==>
              (!GivenText(cd.contactEmail) <==> r == Failure(MissingEmail))
    ensures Validated(cd) ==>
              var grade := ClassNumber(cfg.classes, cd.classEnumId.value);
              var name := ParseName(cd.contactName);
              var courses := BuiltCourses(cfg.subjects, items, cd.subjectsEnumIds);
              && (grade.Failure? ==> r == Failure(grade.error))
              && (grade.Success? && name.Failure? ==> r == Failure(BlankName))
              && (grade.Success? && name.Success? && courses.Failure? ==> r == Failure(courses.error))
              && (r.Success? <==> grade.Success? && name.Success? && courses.Success?)
    ensures r.Success? ==>
              && Validated(cd)
              && r.value.courses == BuiltCourses(cfg.subjects, items, cd.subjectsEnumIds).value
              && r.value.classNumber == ClassNumber(cfg.classes, cd.classEnumId.value).value
              && (r.value.firstName, r.value.lastName) == ParseName(cd.contactName).value
              && r.value.email == cd.contactEmail.value && r.value.phone == cd.contactPhone.value
              && r.value.amount == amount
  {
    var classEnumId := cd.classEnumId;
    if !GivenFlat(classEnumId) {
      return Failure(MissingClassEnumId);
    }
    var subjectsEnumIds := cd.subjectsEnumIds;
    if subjectsEnumIds == [] {
      return Failure(MissingSubjectsEnumIds);
    }
    var contactName := cd.contactName;
    var contactPhone := cd.contactPhone;
    var contactEmail := cd.contactEmail;
    if !GivenText(contactPhone) {
      return Failure(MissingPhone);
    }
    if !GivenText(contactEmail) {
      return Failure(MissingEmail);
    }
    var classNumber := ClassNumber(cfg.classes, classEnumId.value);
    if classNumber.Failure? {
      return Failure(classNumber.error);
    }
    var name := ParseName(contactName);
    if name.Failure? {
      return Failure(name.error);
    }
    var (firstName, lastName) := name.value;
    var courses := BuildCourses(cfg.subjects, items, subjectsEnumIds);
    if courses.Failure? {
      return Failure(courses.error);
    }
    return Success(PlatformPayload(courses.value, firstName, lastName, contactEmail.value,
                                   contactPhone.value, classNumber.value, amount));
  }
}
