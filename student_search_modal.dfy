/**
 * The student search dialog: a case-insensitive filter of the loaded students
 * by name or region, the labels shown for the type and state codes, and the
 * dialog's state as its effects keep it.
 */
module StudentSearchModal {
  import opened Text
  import opened FrontendTypes
  import StudentService

  /** `a` is `b` with some members left out, the rest kept in their order. */
  predicate IsSubsequence<T(==)>(a: seq<T>, b: seq<T>)
    decreases |b|
  {
    if a == [] then true
    else if b == [] then false
    else if a[0] == b[0] then IsSubsequence(a[1..], b[1..])
    else IsSubsequence(a, b[1..])
  }

  lemma {:induction false} IsSubsequenceReflexive<T>(s: seq<T>)
    ensures IsSubsequence(s, s)
  {
    if s != [] {
      IsSubsequenceReflexive(s[1..]);
    }
  }

  /** The filter's test: the lowercased name or the lowercased region includes
      the lowercased term (the term itself is not trimmed). */
  predicate Matches(student: StudentView, term: string)
  {
    Contains(ToLower(student.name), ToLower(term)) || Contains(ToLower(student.region), ToLower(term))
  }

  /** `students.filter(...)`: the students that match, in their order. */
  function Filter(students: seq<StudentView>, term: string): (r: seq<StudentView>)
    ensures IsSubsequence(r, students)
    ensures forall x :: x in r <==> x in students && Matches(x, term)
    ensures forall x :: multiset(r)[x] == if Matches(x, term) then multiset(students)[x] else 0
  {
    if students == [] then []
    else
      var rest := Filter(students[1..], term);
      assert students == [students[0]] + students[1..];
      if Matches(students[0], term) then
        assert ([students[0]] + rest)[1..] == rest;
        [students[0]] + rest
      else
        assert rest != [] ==> rest[0] in rest && rest[0] != students[0];
        rest
  }

  /** The search effect: a term that is blank after `trim` shows every student,
      any other term shows exactly the matching ones. */
  function FilterStudents(students: seq<StudentView>, term: string): (r: seq<StudentView>)
    ensures AllWhitespace(term) ==> r == students
    ensures !AllWhitespace(term) ==> r == Filter(students, term)
    ensures IsSubsequence(r, students)
  {
    TrimEmptyIff(term);
    if Trim(term) == "" then
      IsSubsequenceReflexive(students);
      students
    else Filter(students, term)
  }

  /** The empty term is included in every string, so it keeps every student. */
  lemma {:induction false} FilterEmptyTermKeepsAll(students: seq<StudentView>)
    ensures Filter(students, "") == students
  {
    if students != [] {
      assert Matches(students[0], "");
      FilterEmptyTermKeepsAll(students[1..]);
    }
  }

  /** Filtering twice by the same term is filtering once. */
  lemma {:induction false} FilterIdempotent(students: seq<StudentView>, term: string)
    ensures Filter(Filter(students, term), term) == Filter(students, term)
  {
    if students != [] {
      FilterIdempotent(students[1..], term);
      var rest := Filter(students[1..], term);
      if Matches(students[0], term) {
        assert ([students[0]] + rest)[1..] == rest;
      }
    }
  }

  lemma ToLowerIdempotent(s: string)
    ensures ToLower(ToLower(s)) == ToLower(s)
  {
  }

  /** The search does not depend on the case of the ASCII letters of the term. */
  lemma {:induction false} FilterIgnoresTermCase(students: seq<StudentView>, term: string)
    ensures Filter(students, ToLower(term)) == Filter(students, term)
  {
    ToLowerIdempotent(term);
    if students != [] {
      assert Matches(students[0], ToLower(term)) == Matches(students[0], term);
      FilterIgnoresTermCase(students[1..], term);
    }
  }

  // ---------------------------------------------------------------------------
  // Labels
  // ---------------------------------------------------------------------------

  /** `getTypeLabel`: the Korean label of a student type code; other codes unchanged. */
  function TypeLabel(code: string): (r: string)
    ensures r != code ==> code == "EXAMINEE" || code == "DROPPER" || code == "ADULT"
  {
    match code
    case "EXAMINEE" => "입시생"
    case "DROPPER" => "재수생"
    case "ADULT" => "성인"
    case _ => code
  }

  /** `getStateLabel`: the Korean label of a student state code; other codes unchanged. */
  function StateLabel(code: string): (r: string)
    ensures r != code ==> code == "NORMAL" || code == "GRADUATE" || code == "DELETED"
  {
    match code
    case "NORMAL" => "정상"
    case "GRADUATE" => "졸업"
    case "DELETED" => "탈퇴"
    case _ => code
  }

  /** The codes the server sends for its student types and states. */
  function TypeCode(t: StudentService.StudentType): string
  {
    match t
    case Examinee => "EXAMINEE"
    case Dropper => "DROPPER"
    case Adult => "ADULT"
  }

  function StateCode(s: StudentService.StudentState): string
  {
    match s
    case Normal => "NORMAL"
    case Graduate => "GRADUATE"
    case Deleted => "DELETED"
  }

  /** Every server type and state gets a label of its own, different from its code. */
  lemma LabelsDistinguishServerCodes()
    ensures forall t :: TypeLabel(TypeCode(t)) != TypeCode(t)
    ensures forall t1, t2 :: TypeLabel(TypeCode(t1)) == TypeLabel(TypeCode(t2)) ==> t1 == t2
    ensures forall s :: StateLabel(StateCode(s)) != StateCode(s)
    ensures forall s1, s2 :: StateLabel(StateCode(s1)) == StateLabel(StateCode(s2)) ==> s1 == s2
  {
  }

  // ---------------------------------------------------------------------------
  // The dialog's state
  // ---------------------------------------------------------------------------

  class StudentSearchState {
    var searchTerm: string
    var students: seq<StudentView>
    var filteredStudents: seq<StudentView>
    var loading: bool

    /** The search effect has run on the current term and list. */
    ghost predicate Settled()
      reads this
    {
      filteredStudents == FilterStudents(students, searchTerm)
    }

    constructor ()
      ensures Settled() && searchTerm == "" && students == [] && filteredStudents == [] && !loading
    {
      searchTerm := "";
      students := [];
      filteredStudents := [];
      loading := false;
    }

    /** The effect on opening: the load starts and the term is reset, which shows
        the whole current list. */
    method Open()
      requires Settled()
      modifies this
      ensures Settled() && searchTerm == "" && loading
      ensures students == old(students) && filteredStudents == old(students)
    {
      loading := true;
      searchTerm := "";
      filteredStudents := FilterStudents(students, searchTerm);
    }

    /** The load has answered: the list is stored, loading ends and the search
        effect runs again on the term typed meanwhile. */
    method StudentsLoaded(list: seq<StudentView>)
      modifies this
      ensures Settled() && students == list && !loading && searchTerm == old(searchTerm)
      ensures forall x :: x in filteredStudents ==> x in list
    {
      students := list;
      filteredStudents := list;
      loading := false;
      filteredStudents := FilterStudents(students, searchTerm);
    }

    /** The load has failed: only the loading flag changes. */
    method LoadFailed()
      modifies this
      ensures !loading
      ensures searchTerm == old(searchTerm) && students == old(students) && filteredStudents == old(filteredStudents)
    {
      loading := false;
    }

    /** Typing into the search box; the search effect follows. */
    method SetSearchTerm(term: string)
      modifies this
      ensures Settled() && searchTerm == term
      ensures students == old(students) && loading == old(loading)
    {
      searchTerm := term;
      filteredStudents := FilterStudents(students, searchTerm);
    }
  }
}
