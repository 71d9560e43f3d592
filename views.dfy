/** The request handlers. Each one takes the ids named in the URL or the
    form and, where the source reads it, the acting principal (by the id of
    its profile). It resolves them, asks `Policy.Decide` where the source
    makes a role check, and then changes the store or reports why not. */
module Views {
  import opened Wrappers
  import opened Models
  import Policy

  /** What the course detail page shows: the course, and the student
      profiles not yet enrolled in it (the candidates for enrolment). */
  datatype CourseDetailPage = CourseDetailPage(course: Course, allStudents: set<Id>)

  /** The courses listed on the home page: those a student is enrolled in,
      or those a teacher teaches; none for a principal without a profile. */
  function Home(s: Store, actor: Id): (courses: set<Id>)
    reads s
    ensures courses <= s.courses.Keys
    ensures actor !in s.profiles ==> courses == {}
    ensures actor in s.profiles && s.profiles[actor].role == Student ==>
      forall c :: c in courses <==> c in s.courses && actor in s.courses[c].students
    ensures actor in s.profiles && s.profiles[actor].role == Teacher ==>
      forall c :: c in courses <==> c in s.courses && s.courses[c].teacher == actor
  {
    if actor !in s.profiles then {}
    else if s.profiles[actor].role == Student then set c | c in s.courses && actor in s.courses[c].students
    else set c | c in s.courses && s.courses[c].teacher == actor
  }

  /** The course detail page. The course is looked up first; a student who
      is not enrolled is refused, while any teacher may look at any
      course. */
  function CourseDetail(s: Store, actor: Id, c: Id): (r: Result<CourseDetailPage>)
    reads s
    ensures c !in s.courses || actor !in s.profiles ==> r == Failure(NotFound)
    ensures c in s.courses && actor in s.profiles ==>
      (r == Failure(Forbidden) <==> s.profiles[actor].role == Student && actor !in s.courses[c].students)
    ensures r.Success? <==>
      c in s.courses && actor in s.profiles &&
      (s.profiles[actor].role == Teacher || actor in s.courses[c].students)
    ensures r.Success? ==> r.value.course == s.courses[c]
    ensures r.Success? ==> forall p :: p in r.value.allStudents <==>
      p in s.profiles && s.profiles[p].role == Student && p !in s.courses[c].students
  {
    if c !in s.courses || actor !in s.profiles then Failure(NotFound)
    else
      var enrolled := actor in s.courses[c].students;
      if Policy.Decide(s.profiles[actor].role, Policy.ViewCourse, enrolled) == Policy.Deny then
        Failure(Forbidden)
      else
        var others := set p | p in s.profiles && s.profiles[p].role == Student && p !in s.courses[c].students;
        Success(CourseDetailPage(s.courses[c], others))
  }

  /** Every course on the home page opens for its viewer, and for a student
      the home page lists exactly the courses that open. */
  lemma HomeCoursesAreViewable(s: Store, actor: Id, c: Id)
    ensures c in Home(s, actor) ==> CourseDetail(s, actor, c).Success?
    ensures actor in s.profiles && s.profiles[actor].role == Student ==>
      (c in Home(s, actor) <==> CourseDetail(s, actor, c).Success?)
  {
  }

  /** Creates a course. Only a teacher may; the creator becomes its teacher
      whatever the form says. */
  method CourseCreate(s: Store, actor: Id, title: string, startDate: Date, endDate: Date) returns (r: Result<Id>)
    requires s.Valid()
    modifies s`courses, s`nextCourse
    ensures s.Valid()
    ensures actor !in s.profiles ==> r == Failure(NotFound)
    ensures actor in s.profiles ==>
      if s.profiles[actor].role == Teacher then r.Success? else r == Failure(Forbidden)
    ensures r.Failure? ==> s.courses == old(s.courses)
    ensures r.Success? ==> r.value !in old(s.courses)
    ensures r.Success? ==> s.courses == old(s.courses)[r.value := Course(title, actor, {}, startDate, endDate)]
  {
    if actor !in s.profiles {
      return Failure(NotFound);
    }
    if Policy.Decide(s.profiles[actor].role, Policy.CreateCourse, false) == Policy.Deny {
      return Failure(Forbidden);
    }
    var id := s.CreateCourse(title, actor, startDate, endDate);
    r := Success(id);
  }

  /** Edits the title and dates of a course. The role is checked before the
      course is looked up, and any teacher may edit any course. */
  method CourseUpdate(s: Store, actor: Id, c: Id, title: string, startDate: Date, endDate: Date)
    returns (r: Result<()>)
    requires s.Valid()
    modifies s`courses
    ensures s.Valid()
    ensures actor !in s.profiles ==> r == Failure(NotFound)
    ensures actor in s.profiles && s.profiles[actor].role == Student ==> r == Failure(Forbidden)
    ensures actor in s.profiles && s.profiles[actor].role == Teacher ==>
      (r.Success? <==> c in old(s.courses)) && (r.Failure? ==> r.error == NotFound)
    ensures r.Failure? ==> s.courses == old(s.courses)
    ensures r.Success? ==>
      s.courses == old(s.courses)[c := old(s.courses)[c].(title := title, startDate := startDate, endDate := endDate)]
  {
    if actor !in s.profiles {
      return Failure(NotFound);
    }
    if Policy.Decide(s.profiles[actor].role, Policy.UpdateCourse, false) == Policy.Deny {
      return Failure(Forbidden);
    }
    if c !in s.courses {
      return Failure(NotFound);
    }
    s.UpdateCourse(c, title, startDate, endDate);
    r := Success(());
  }

  /** Deletes a course and what cascades from it. The role is checked
      before the course is looked up, and any teacher may delete any
      course. */
  method CourseDelete(s: Store, actor: Id, c: Id) returns (r: Result<()>)
    requires s.Valid()
    modifies s`courses, s`lessons, s`assignments, s`forums, s`posts
    ensures s.Valid()
    ensures actor !in s.profiles ==> r == Failure(NotFound)
    ensures actor in s.profiles && s.profiles[actor].role == Student ==> r == Failure(Forbidden)
    ensures actor in s.profiles && s.profiles[actor].role == Teacher ==>
      (r.Success? <==> c in old(s.courses)) && (r.Failure? ==> r.error == NotFound)
    ensures r.Failure? ==>
      && s.courses == old(s.courses) && s.lessons == old(s.lessons) && s.assignments == old(s.assignments)
      && s.forums == old(s.forums) && s.posts == old(s.posts)
    ensures r.Success? ==> forall d :: d in s.courses <==> d in old(s.courses) && d != c
    ensures r.Success? ==> forall d :: d in s.courses ==> s.courses[d] == old(s.courses)[d]
    ensures r.Success? ==> forall l :: l in s.lessons <==> l in old(s.lessons) && old(s.lessons)[l].course != c
    ensures r.Success? ==> forall a :: a in s.assignments <==> a in old(s.assignments) && old(s.assignments)[a].course != c
    ensures r.Success? ==> forall f :: f in s.forums <==> f in old(s.forums) && old(s.forums)[f].course != c
    ensures r.Success? ==> forall q :: q in s.posts <==> q in old(s.posts) && old(s.posts)[q].forum in s.forums
    ensures r.Success? ==>
      && (forall l :: l in s.lessons ==> s.lessons[l] == old(s.lessons)[l])
      && (forall a :: a in s.assignments ==> s.assignments[a] == old(s.assignments)[a])
      && (forall f :: f in s.forums ==> s.forums[f] == old(s.forums)[f])
      && (forall q :: q in s.posts ==> s.posts[q] == old(s.posts)[q])
  {
    if actor !in s.profiles {
      return Failure(NotFound);
    }
    if Policy.Decide(s.profiles[actor].role, Policy.DeleteCourse, false) == Policy.Deny {
      return Failure(Forbidden);
    }
    if c !in s.courses {
      return Failure(NotFound);
    }
    s.DeleteCourses({c});
    r := Success(());
  }

  /** Posting on an assignment's page: a student is recorded as having
      completed it (again, harmlessly); anyone else changes nothing. Both
      end in the same redirect, so both succeed. */
  method AssignmentComplete(s: Store, actor: Id, a: Id) returns (r: Result<()>)
    requires s.Valid()
    modifies s`assignments
    ensures s.Valid()
    ensures r.Failure? <==> a !in old(s.assignments) || actor !in s.profiles
    ensures r.Failure? ==> r.error == NotFound
    ensures r.Success? && s.profiles[actor].role == Student ==>
      s.assignments == old(s.assignments)[a := old(s.assignments)[a].(
        studentsCompleted := old(s.assignments)[a].studentsCompleted + {actor})]
    ensures r.Success? && s.profiles[actor].role == Student ==> actor in s.assignments[a].studentsCompleted
    ensures (r.Success? && s.profiles[actor].role == Teacher) || r.Failure? ==> s.assignments == old(s.assignments)
  {
    if a !in s.assignments || actor !in s.profiles {
      return Failure(NotFound);
    }
    if Policy.Decide(s.profiles[actor].role, Policy.MarkComplete, false) == Policy.Allow {
      s.Complete(a, actor);
    }
    r := Success(());
  }

  /** Adds a lesson to a course. Nothing checks who asks. */
  method LessonCreate(s: Store, c: Id, title: string, description: string, dateTime: DateTime)
    returns (r: Result<Id>)
    requires s.Valid()
    modifies s`lessons, s`nextLesson
    ensures s.Valid()
    ensures r.Failure? <==> c !in s.courses
    ensures r.Failure? ==> r.error == NotFound && s.lessons == old(s.lessons)
    ensures r.Success? ==>
      r.value !in old(s.lessons) && s.lessons == old(s.lessons)[r.value := Lesson(c, title, description, dateTime)]
  {
    if c !in s.courses {
      return Failure(NotFound);
    }
    var id := s.CreateLesson(c, title, description, dateTime);
    r := Success(id);
  }

  /** Adds an assignment to a course. Nothing checks who asks. */
  method AssignmentCreate(s: Store, c: Id, title: string, description: string, dueDate: DateTime)
    returns (r: Result<Id>)
    requires s.Valid()
    modifies s`assignments, s`nextAssignment
    ensures s.Valid()
    ensures r.Failure? <==> c !in s.courses
    ensures r.Failure? ==> r.error == NotFound && s.assignments == old(s.assignments)
    ensures r.Success? ==> r.value !in old(s.assignments)
    ensures r.Success? ==>
      s.assignments == old(s.assignments)[r.value := Assignment(c, title, description, dueDate, {})]
  {
    if c !in s.courses {
      return Failure(NotFound);
    }
    var id := s.CreateAssignment(c, title, description, dueDate);
    r := Success(id);
  }

  /** Enrols a profile in a course. Nothing checks who asks, nor that the
      profile is a student's. */
  method AddStudentToCourse(s: Store, c: Id, student: Id) returns (r: Result<()>)
    requires s.Valid()
    modifies s`courses
    ensures s.Valid()
    ensures r.Failure? <==> c !in old(s.courses) || student !in s.profiles
    ensures r.Failure? ==> r.error == NotFound && s.courses == old(s.courses)
    ensures r.Success? ==> s.courses.Keys == old(s.courses).Keys
    ensures r.Success? ==> s.courses[c] == old(s.courses)[c].(students := old(s.courses)[c].students + {student})
    ensures r.Success? ==> forall d :: d in s.courses && d != c ==> s.courses[d] == old(s.courses)[d]
    ensures r.Success? && student in old(s.courses)[c].students ==> s.courses == old(s.courses)
  {
    if c !in s.courses || student !in s.profiles {
      return Failure(NotFound);
    }
    s.Enroll(c, student);
    r := Success(());
  }

  /** Removes a profile from a course's students; removing a non-member
      changes nothing and still succeeds. Nothing checks who asks. */
  method RemoveStudentFromCourse(s: Store, c: Id, student: Id) returns (r: Result<()>)
    requires s.Valid()
    modifies s`courses
    ensures s.Valid()
    ensures r.Failure? <==> c !in old(s.courses) || student !in s.profiles
    ensures r.Failure? ==> r.error == NotFound && s.courses == old(s.courses)
    ensures r.Success? ==> s.courses.Keys == old(s.courses).Keys
    ensures r.Success? ==> s.courses[c] == old(s.courses)[c].(students := old(s.courses)[c].students - {student})
    ensures r.Success? ==> forall d :: d in s.courses && d != c ==> s.courses[d] == old(s.courses)[d]
    ensures r.Success? && student !in old(s.courses)[c].students ==> s.courses == old(s.courses)
  {
    if c !in s.courses || student !in s.profiles {
      return Failure(NotFound);
    }
    s.Unenroll(c, student);
    r := Success(());
  }

  /** A teacher creates a course; a student may neither open it nor create
      one of their own. */
  method CreationScenario()
  {
    var s := new Store();
    var teacher := s.CreateProfile(Some("teacher"), "");
    var student := s.CreateProfile(None, "");
    assert teacher.Success? && student.Success?;
    var t, u := teacher.value, student.value;
    assert s.profiles[u].role == Student;

    var created := CourseCreate(s, t, "Algorithms", 0, 152);
    assert created.Success?;
    var c := created.value;
    assert s.courses[c].teacher == t;

    assert CourseDetail(s, u, c) == Failure(Forbidden);
    var refused := CourseCreate(s, u, "Other", 0, 1);
    assert refused == Failure(Forbidden);
  }

  /** A student is refused a course page until enrolled, sees it (and finds
      it on the home page) while enrolled, and is refused again once
      removed. */
  method EnrolmentScenario(s: Store, u: Id, c: Id)
    requires s.Valid() && c in s.courses && u in s.profiles && s.profiles[u].role == Student
    requires u !in s.courses[c].students
    modifies s`courses
  {
    assert CourseDetail(s, u, c) == Failure(Forbidden);
    var added := AddStudentToCourse(s, c, u);
    var page := CourseDetail(s, u, c);
    assert page.Success? && page.value.course.title == old(s.courses)[c].title;
    assert c in Home(s, u);

    var removed := RemoveStudentFromCourse(s, c, u);
    assert CourseDetail(s, u, c) == Failure(Forbidden);
  }

  /** A student cannot delete a course; a teacher, even one who does not
      teach it, can. */
  method DeletionScenario(s: Store, u: Id, t: Id, c: Id)
    requires s.Valid() && c in s.courses
    requires u in s.profiles && s.profiles[u].role == Student
    requires t in s.profiles && s.profiles[t].role == Teacher && s.courses[c].teacher != t
    modifies s`courses, s`lessons, s`assignments, s`forums, s`posts
  {
    var deleted := CourseDelete(s, u, c);
    assert deleted == Failure(Forbidden) && c in s.courses;
    deleted := CourseDelete(s, t, c);
    assert deleted.Success? && c !in s.courses;
  }
}
