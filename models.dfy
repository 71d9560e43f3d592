/** The tables of the study_buddy app: profiles with a role, courses owned by
    a teacher with a set of enrolled students, lessons and assignments of a
    course, at most one forum per course with its posts, and notifications
    sent to a profile. Foreign keys delete in cascade. */
module Models {
  import opened Wrappers
  import Ordering

  /** Primary key of a row. Each table draws its keys from its own counter. */
  type Id = nat
  /** A calendar date (DateField), as days from some epoch. */
  type Date = int
  /** A point in time (DateTimeField), as microseconds from some epoch. */
  type DateTime = int

  /** The two values of the profile's `role` field. */
  datatype Role = Student | Teacher

  /** A profile created without a role is a student. */
  const DEFAULT_ROLE: Role := Student

  /** The value stored in the `role` column for each choice. */
  function RoleName(role: Role): (name: string)
    ensures name == "student" <==> role == Student
    ensures name == "teacher" <==> role == Teacher
  {
    match role
    case Student => "student"
    case Teacher => "teacher"
  }

  /** Reads a stored `role` value; only the two declared choices are roles. */
  function ParseRole(name: string): (role: Option<Role>)
    ensures role.Some? <==> name == "student" || name == "teacher"
    ensures role.Some? ==> RoleName(role.value) == name
  {
    if name == "student" then Some(Student)
    else if name == "teacher" then Some(Teacher)
    else None
  }

  datatype Profile = Profile(role: Role, interests: string)

  datatype Course = Course(
    title: string,
    teacher: Id,
    students: set<Id>,
    startDate: Date,
    endDate: Date)

  datatype Lesson = Lesson(course: Id, title: string, description: string, dateTime: DateTime)

  datatype Assignment = Assignment(
    course: Id,
    title: string,
    description: string,
    dueDate: DateTime,
    studentsCompleted: set<Id>)

  datatype Forum = Forum(course: Id, title: string)

  datatype ForumPost = ForumPost(
    forum: Id,
    author: Id,
    title: string,
    content: string,
    createdAt: DateTime,
    updatedAt: DateTime)

  datatype Notification = Notification(
    recipient: Id,
    title: string,
    content: string,
    createdAt: DateTime,
    read: bool)

  /** The database: one map per table from primary key to row. The
      many-to-many tables are the `students` and `studentsCompleted` sets. */
  class Store {
    var profiles: map<Id, Profile>
    var courses: map<Id, Course>
    var lessons: map<Id, Lesson>
    var assignments: map<Id, Assignment>
    var forums: map<Id, Forum>
    var posts: map<Id, ForumPost>
    var notifications: map<Id, Notification>

    var nextProfile: Id
    var nextCourse: Id
    var nextLesson: Id
    var nextAssignment: Id
    var nextForum: Id
    var nextPost: Id
    var nextNotification: Id

    // One predicate per table, each reading only the fields it depends on,
    // so that a change to one table leaves the others' facts standing.
    // Every key is below its table's counter, so the counter is a fresh key,
    // and every foreign key or many-to-many member names a stored row.

    ghost predicate ProfilesValid()
      reads this`profiles, this`nextProfile
    {
      forall k | k in profiles :: k < nextProfile
    }

    ghost predicate CoursesValid()
      reads this`courses, this`nextCourse, this`profiles
    {
      forall c | c in courses ::
        c < nextCourse && courses[c].teacher in profiles && courses[c].students <= profiles.Keys
    }

    ghost predicate LessonsValid()
      reads this`lessons, this`nextLesson, this`courses
    {
      forall l | l in lessons :: l < nextLesson && lessons[l].course in courses
    }

    ghost predicate AssignmentsValid()
      reads this`assignments, this`nextAssignment, this`courses, this`profiles
    {
      forall a | a in assignments ::
        a < nextAssignment && assignments[a].course in courses && assignments[a].studentsCompleted <= profiles.Keys
    }

    /** Also: the forum's link to its course is one-to-one. */
    ghost predicate ForumsValid()
      reads this`forums, this`nextForum, this`courses
    {
      && (forall f | f in forums :: f < nextForum && forums[f].course in courses)
      && (forall f, g | f in forums && g in forums && forums[f].course == forums[g].course :: f == g)
    }

    ghost predicate PostsValid()
      reads this`posts, this`nextPost, this`forums, this`profiles
    {
      forall q | q in posts :: q < nextPost && posts[q].forum in forums && posts[q].author in profiles
    }

    ghost predicate NotificationsValid()
      reads this`notifications, this`nextNotification, this`profiles
    {
      forall n | n in notifications :: n < nextNotification && notifications[n].recipient in profiles
    }

    ghost predicate Valid()
      reads this
    {
      && ProfilesValid() && CoursesValid() && LessonsValid() && AssignmentsValid()
      && ForumsValid() && PostsValid() && NotificationsValid()
    }

    /** An empty database. */
    constructor ()
      ensures Valid()
      ensures profiles == map[] && courses == map[] && lessons == map[] && assignments == map[]
      ensures forums == map[] && posts == map[] && notifications == map[]
    {
      profiles, courses, lessons, assignments := map[], map[], map[], map[];
      forums, posts, notifications := map[], map[], map[];
      nextProfile, nextCourse, nextLesson, nextAssignment := 0, 0, 0, 0;
      nextForum, nextPost, nextNotification := 0, 0, 0;
    }

    /** Saves a profile. A missing `role` takes the default; a value outside
        the two choices is refused. */
    method CreateProfile(role: Option<string>, interests: string) returns (r: Result<Id>)
      requires Valid()
      modifies this`profiles, this`nextProfile
      ensures Valid()
      ensures r.Success? <==> role.None? || ParseRole(role.value).Some?
      ensures r.Failure? ==> r.error == Invalid && profiles == old(profiles)
      ensures r.Success? ==> r.value !in old(profiles)
      ensures r.Success? ==>
        profiles == old(profiles)[r.value := Profile(
          if role.None? then DEFAULT_ROLE else ParseRole(role.value).value, interests)]
    {
      var value := DEFAULT_ROLE;
      if role.Some? {
        var parsed := ParseRole(role.value);
        if parsed.None? {
          return Failure(Invalid);
        }
        value := parsed.value;
      }
      r := Success(nextProfile);
      profiles := profiles[nextProfile := Profile(value, interests)];
      nextProfile := nextProfile + 1;
    }

    /** Saves a course taught by `teacher`, with nobody enrolled. */
    method CreateCourse(title: string, teacher: Id, startDate: Date, endDate: Date) returns (id: Id)
      requires Valid() && teacher in profiles
      modifies this`courses, this`nextCourse
      ensures Valid()
      ensures id !in old(courses)
      ensures courses == old(courses)[id := Course(title, teacher, {}, startDate, endDate)]
    {
      id := nextCourse;
      courses := courses[id := Course(title, teacher, {}, startDate, endDate)];
      nextCourse := nextCourse + 1;
    }

    /** Overwrites the editable fields of a course; its teacher and students
        stay as they were. */
    method UpdateCourse(c: Id, title: string, startDate: Date, endDate: Date)
      requires Valid() && c in courses
      modifies this`courses
      ensures Valid()
      ensures courses == old(courses)[c := old(courses)[c].(title := title, startDate := startDate, endDate := endDate)]
    {
      courses := courses[c := courses[c].(title := title, startDate := startDate, endDate := endDate)];
    }

    /** Adds `p` to the students of course `c`; adding a member again
        changes nothing. */
    method Enroll(c: Id, p: Id)
      requires Valid() && c in courses && p in profiles
      modifies this`courses
      ensures Valid()
      ensures courses == old(courses)[c := old(courses)[c].(students := old(courses)[c].students + {p})]
      ensures p in old(courses)[c].students ==> courses == old(courses)
    {
      courses := courses[c := courses[c].(students := courses[c].students + {p})];
      if p in old(courses)[c].students {
        assert courses[c] == old(courses)[c];
      }
    }

    /** Removes `p` from the students of course `c`; removing a non-member
        changes nothing. */
    method Unenroll(c: Id, p: Id)
      requires Valid() && c in courses
      modifies this`courses
      ensures Valid()
      ensures courses == old(courses)[c := old(courses)[c].(students := old(courses)[c].students - {p})]
      ensures p !in old(courses)[c].students ==> courses == old(courses)
    {
      courses := courses[c := courses[c].(students := courses[c].students - {p})];
      if p !in old(courses)[c].students {
        assert courses[c] == old(courses)[c];
      }
    }

    /** Saves a lesson of course `c`. */
    method CreateLesson(c: Id, title: string, description: string, dateTime: DateTime) returns (id: Id)
      requires Valid() && c in courses
      modifies this`lessons, this`nextLesson
      ensures Valid()
      ensures id !in old(lessons)
      ensures lessons == old(lessons)[id := Lesson(c, title, description, dateTime)]
    {
      id := nextLesson;
      lessons := lessons[id := Lesson(c, title, description, dateTime)];
      nextLesson := nextLesson + 1;
    }

    /** Saves an assignment of course `c` that nobody has completed yet. */
    method CreateAssignment(c: Id, title: string, description: string, dueDate: DateTime) returns (id: Id)
      requires Valid() && c in courses
      modifies this`assignments, this`nextAssignment
      ensures Valid()
      ensures id !in old(assignments)
      ensures assignments == old(assignments)[id := Assignment(c, title, description, dueDate, {})]
    {
      id := nextAssignment;
      assignments := assignments[id := Assignment(c, title, description, dueDate, {})];
      nextAssignment := nextAssignment + 1;
    }

    /** Adds `p` to the profiles that completed assignment `a`; adding a
        member again changes nothing. */
    method Complete(a: Id, p: Id)
      requires Valid() && a in assignments && p in profiles
      modifies this`assignments
      ensures Valid()
      ensures assignments == old(assignments)[a := old(assignments)[a].(
        studentsCompleted := old(assignments)[a].studentsCompleted + {p})]
      ensures p in old(assignments)[a].studentsCompleted ==> assignments == old(assignments)
    {
      assignments := assignments[a := assignments[a].(studentsCompleted := assignments[a].studentsCompleted + {p})];
      if p in old(assignments)[a].studentsCompleted {
        assert assignments[a] == old(assignments)[a];
      }
    }

    /** Saves the forum of course `c`; a second forum for the same course
        breaks the one-to-one link and is refused. */
    method CreateForum(c: Id, title: string) returns (r: Result<Id>)
      requires Valid() && c in courses
      modifies this`forums, this`nextForum
      ensures Valid()
      ensures r.Failure? <==> exists f :: f in old(forums) && old(forums)[f].course == c
      ensures r.Failure? ==> r.error == Conflict && forums == old(forums)
      ensures r.Success? ==> r.value !in old(forums) && forums == old(forums)[r.value := Forum(c, title)]
    {
      if exists f :: f in forums && forums[f].course == c {
        return Failure(Conflict);
      }
      r := Success(nextForum);
      forums := forums[nextForum := Forum(c, title)];
      nextForum := nextForum + 1;
    }

    /** Saves a post in forum `f` by `author`; both timestamps are taken
        from the one clock reading `now`. */
    method CreatePost(f: Id, author: Id, title: string, content: string, now: DateTime) returns (id: Id)
      requires Valid() && f in forums && author in profiles
      modifies this`posts, this`nextPost
      ensures Valid()
      ensures id !in old(posts)
      ensures posts == old(posts)[id := ForumPost(f, author, title, content, now, now)]
    {
      id := nextPost;
      posts := posts[id := ForumPost(f, author, title, content, now, now)];
      nextPost := nextPost + 1;
    }

    /** Saves a notification for `recipient`; it starts unread. */
    method CreateNotification(recipient: Id, title: string, content: string, now: DateTime) returns (id: Id)
      requires Valid() && recipient in profiles
      modifies this`notifications, this`nextNotification
      ensures Valid()
      ensures id !in old(notifications)
      ensures notifications == old(notifications)[id := Notification(recipient, title, content, now, false)]
      ensures !notifications[id].read
    {
      id := nextNotification;
      notifications := notifications[id := Notification(recipient, title, content, now, false)];
      nextNotification := nextNotification + 1;
    }

    /** Deletes the posts of the forums in `fs`. */
    method DeletePostsIn(fs: set<Id>)
      requires Valid()
      modifies this`posts
      ensures Valid()
      ensures forall p :: p in posts <==> p in old(posts) && old(posts)[p].forum !in fs
      ensures forall p :: p in posts ==> posts[p] == old(posts)[p]
    {
      posts := map p | p in posts && posts[p].forum !in fs :: posts[p];
    }

    /** Deletes the forums of the courses in `cs`; none of their posts may
        be left. */
    method DeleteForumsOf(cs: set<Id>)
      requires Valid()
      requires forall p | p in posts :: forums[posts[p].forum].course !in cs
      modifies this`forums
      ensures Valid()
      ensures forall f :: f in forums <==> f in old(forums) && old(forums)[f].course !in cs
      ensures forall f :: f in forums ==> forums[f] == old(forums)[f]
    {
      forums := map f | f in forums && forums[f].course !in cs :: forums[f];
    }

    /** Deletes the forums of the courses in `cs` and the posts in them. */
    method DeleteForumsWithPostsOf(cs: set<Id>)
      requires Valid()
      modifies this`forums, this`posts
      ensures Valid()
      ensures forall f :: f in forums <==> f in old(forums) && old(forums)[f].course !in cs
      ensures forall f :: f in forums ==> forums[f] == old(forums)[f]
      ensures forall p :: p in posts <==> p in old(posts) && old(forums)[old(posts)[p].forum].course !in cs
      ensures forall p :: p in posts ==> posts[p] == old(posts)[p]
    {
      var goneForums := set f | f in forums && forums[f].course in cs;
      DeletePostsIn(goneForums);
      DeleteForumsOf(cs);
    }

    /** Deletes the lessons of the courses in `cs`. */
    method DeleteLessonsOf(cs: set<Id>)
      requires Valid()
      modifies this`lessons
      ensures Valid()
      ensures forall l :: l in lessons <==> l in old(lessons) && old(lessons)[l].course !in cs
      ensures forall l :: l in lessons ==> lessons[l] == old(lessons)[l]
    {
      lessons := map l | l in lessons && lessons[l].course !in cs :: lessons[l];
    }

    /** Deletes the assignments of the courses in `cs`, and with them their
        completion sets. */
    method DeleteAssignmentsOf(cs: set<Id>)
      requires Valid()
      modifies this`assignments
      ensures Valid()
      ensures forall a :: a in assignments <==> a in old(assignments) && old(assignments)[a].course !in cs
      ensures forall a :: a in assignments ==> assignments[a] == old(assignments)[a]
    {
      assignments := map a | a in assignments && assignments[a].course !in cs :: assignments[a];
    }

    /** Deletes the courses in `cs`, and with them their enrolment sets; no
        lesson, assignment or forum of theirs may be left. */
    method DeleteCourseRows(cs: set<Id>)
      requires Valid()
      requires forall l | l in lessons :: lessons[l].course !in cs
      requires forall a | a in assignments :: assignments[a].course !in cs
      requires forall f | f in forums :: forums[f].course !in cs
      modifies this`courses
      ensures Valid()
      ensures forall c :: c in courses <==> c in old(courses) && c !in cs
      ensures forall c :: c in courses ==> courses[c] == old(courses)[c]
    {
      courses := courses - cs;
    }

    /** Deletes the courses in `gone` together with everything that
        cascades from them: their lessons, their assignments, their forums
        and the posts of those forums. Dependents go first, so every step
        leaves the database consistent. */
    method DeleteCourses(gone: set<Id>)
      requires Valid()
      modifies this`courses, this`lessons, this`assignments, this`forums, this`posts
      ensures Valid()
      ensures forall c :: c in courses <==> c in old(courses) && c !in gone
      ensures forall c :: c in courses ==> courses[c] == old(courses)[c]
      ensures forall l :: l in lessons <==> l in old(lessons) && old(lessons)[l].course !in gone
      ensures forall l :: l in lessons ==> lessons[l] == old(lessons)[l]
      ensures forall a :: a in assignments <==> a in old(assignments) && old(assignments)[a].course !in gone
      ensures forall a :: a in assignments ==> assignments[a] == old(assignments)[a]
      ensures forall f :: f in forums <==> f in old(forums) && old(forums)[f].course !in gone
      ensures forall f :: f in forums ==> forums[f] == old(forums)[f]
      ensures forall p :: p in posts <==> p in old(posts) && old(forums)[old(posts)[p].forum].course !in gone
      ensures forall p :: p in posts ==> posts[p] == old(posts)[p]
    {
      DeleteForumsWithPostsOf(gone);
      DeleteAssignmentsOf(gone);
      DeleteLessonsOf(gone);
      DeleteCourseRows(gone);
    }

    /** Deletes forum `f` and exactly its posts. */
    method DeleteForum(f: Id)
      requires Valid() && f in forums
      modifies this`forums, this`posts
      ensures Valid()
      ensures forums == old(forums) - {f}
      ensures forall p :: p in posts <==> p in old(posts) && old(posts)[p].forum != f
      ensures forall p :: p in posts ==> posts[p] == old(posts)[p]
    {
      posts := map p | p in posts && posts[p].forum != f :: posts[p];
      forums := forums - {f};
    }

    /** Deletes the posts written by `p`. */
    method DeletePostsBy(p: Id)
      requires Valid()
      modifies this`posts
      ensures Valid()
      ensures forall q :: q in posts <==> q in old(posts) && old(posts)[q].author != p
      ensures forall q :: q in posts ==> posts[q] == old(posts)[q]
    {
      posts := map q | q in posts && posts[q].author != p :: posts[q];
    }

    /** Deletes the notifications sent to `p`. */
    method DeleteNotificationsOf(p: Id)
      requires Valid()
      modifies this`notifications
      ensures Valid()
      ensures forall n :: n in notifications <==> n in old(notifications) && old(notifications)[n].recipient != p
      ensures forall n :: n in notifications ==> notifications[n] == old(notifications)[n]
    {
      notifications := map n | n in notifications && notifications[n].recipient != p :: notifications[n];
    }

    /** Removes `p` from every enrolment set. */
    method DeleteEnrolments(p: Id)
      requires Valid()
      modifies this`courses
      ensures Valid()
      ensures forall c :: c in courses <==> c in old(courses)
      ensures forall c :: c in courses ==>
        courses[c] == old(courses)[c].(students := old(courses)[c].students - {p})
      ensures forall c | c in courses :: p !in courses[c].students && courses[c].teacher == old(courses)[c].teacher
    {
      courses := map c | c in courses :: courses[c].(students := courses[c].students - {p});
    }

    /** Removes `p` from every completion set. */
    method DeleteCompletions(p: Id)
      requires Valid()
      modifies this`assignments
      ensures Valid()
      ensures forall a :: a in assignments <==> a in old(assignments)
      ensures forall a :: a in assignments ==>
        assignments[a] == old(assignments)[a].(studentsCompleted := old(assignments)[a].studentsCompleted - {p})
      ensures forall a | a in assignments :: p !in assignments[a].studentsCompleted
    {
      assignments := map a | a in assignments ::
        assignments[a].(studentsCompleted := assignments[a].studentsCompleted - {p});
    }

    /** Removes `p` from every enrolment set and every completion set. */
    method DeleteMemberships(p: Id)
      requires Valid()
      modifies this`courses, this`assignments
      ensures Valid()
      ensures forall c :: c in courses <==> c in old(courses)
      ensures forall c :: c in courses ==>
        courses[c] == old(courses)[c].(students := old(courses)[c].students - {p})
      ensures forall c | c in courses :: p !in courses[c].students && courses[c].teacher == old(courses)[c].teacher
      ensures forall a :: a in assignments <==> a in old(assignments)
      ensures forall a :: a in assignments ==>
        assignments[a] == old(assignments)[a].(studentsCompleted := old(assignments)[a].studentsCompleted - {p})
      ensures forall a | a in assignments :: p !in assignments[a].studentsCompleted
    {
      DeleteEnrolments(p);
      DeleteCompletions(p);
    }

    /** Deletes the row of profile `p`, which nothing refers to any more. */
    method DeleteUnreferencedProfile(p: Id)
      requires Valid()
      requires forall c | c in courses :: courses[c].teacher != p && p !in courses[c].students
      requires forall a | a in assignments :: p !in assignments[a].studentsCompleted
      requires forall q | q in posts :: posts[q].author != p
      requires forall n | n in notifications :: notifications[n].recipient != p
      modifies this`profiles
      ensures Valid()
      ensures profiles == old(profiles) - {p}
    {
      profiles := profiles - {p};
    }

    /** Deletes the courses taught by `p`, with their cascade. */
    method DeleteCoursesTaughtBy(p: Id)
      requires Valid()
      modifies this`courses, this`lessons, this`assignments, this`forums, this`posts
      ensures Valid()
      ensures forall c :: c in courses <==> c in old(courses) && old(courses)[c].teacher != p
      ensures forall c :: c in courses ==> courses[c] == old(courses)[c]
      ensures forall l :: l in lessons <==> l in old(lessons) && old(lessons)[l].course in courses
      ensures forall l :: l in lessons ==> lessons[l] == old(lessons)[l]
      ensures forall a :: a in assignments <==> a in old(assignments) && old(assignments)[a].course in courses
      ensures forall a :: a in assignments ==> assignments[a] == old(assignments)[a]
      ensures forall f :: f in forums <==> f in old(forums) && old(forums)[f].course in courses
      ensures forall f :: f in forums ==> forums[f] == old(forums)[f]
      ensures forall q :: q in posts <==> q in old(posts) && old(posts)[q].forum in forums
      ensures forall q :: q in posts ==> posts[q] == old(posts)[q]
    {
      var taught := set c | c in courses && courses[c].teacher == p;
      DeleteCourses(taught);
    }

    /** Deletes every row that cascades from profile `p`: the courses it
        teaches with their own cascade, its posts and its notifications. */
    method DeleteDependentsOf(p: Id)
      requires Valid()
      modifies this`courses, this`lessons, this`assignments, this`forums, this`posts, this`notifications
      ensures Valid()
      ensures forall c :: c in courses <==> c in old(courses) && old(courses)[c].teacher != p
      ensures forall c :: c in courses ==> courses[c] == old(courses)[c]
      ensures forall l :: l in lessons <==> l in old(lessons) && old(lessons)[l].course in courses
      ensures forall l :: l in lessons ==> lessons[l] == old(lessons)[l]
      ensures forall a :: a in assignments <==> a in old(assignments) && old(assignments)[a].course in courses
      ensures forall a :: a in assignments ==> assignments[a] == old(assignments)[a]
      ensures forall f :: f in forums <==> f in old(forums) && old(forums)[f].course in courses
      ensures forall f :: f in forums ==> forums[f] == old(forums)[f]
      ensures forall q :: q in posts <==> q in old(posts) && old(posts)[q].author != p && old(posts)[q].forum in forums
      ensures forall q :: q in posts ==> posts[q] == old(posts)[q]
      ensures forall n :: n in notifications <==> n in old(notifications) && old(notifications)[n].recipient != p
      ensures forall n :: n in notifications ==> notifications[n] == old(notifications)[n]
    {
      DeleteCoursesTaughtBy(p);
      DeletePostsBy(p);
      DeleteNotificationsOf(p);
    }

    /** Deletes profile `p`: the courses it teaches go, with their cascade;
        its posts and notifications go; it leaves every enrolment and
        completion set. */
    method DeleteProfile(p: Id)
      requires Valid() && p in profiles
      modifies this`profiles, this`courses, this`lessons, this`assignments
      modifies this`forums, this`posts, this`notifications
      ensures Valid()
      ensures profiles == old(profiles) - {p}
      ensures forall c :: c in courses <==> c in old(courses) && old(courses)[c].teacher != p
      ensures forall c :: c in courses ==>
        courses[c] == old(courses)[c].(students := old(courses)[c].students - {p})
      ensures forall l :: l in lessons <==> l in old(lessons) && old(lessons)[l].course in courses
      ensures forall l :: l in lessons ==> lessons[l] == old(lessons)[l]
      ensures forall a :: a in assignments <==> a in old(assignments) && old(assignments)[a].course in courses
      ensures forall a :: a in assignments ==>
        assignments[a] == old(assignments)[a].(studentsCompleted := old(assignments)[a].studentsCompleted - {p})
      ensures forall f :: f in forums <==> f in old(forums) && old(forums)[f].course in courses
      ensures forall f :: f in forums ==> forums[f] == old(forums)[f]
      ensures forall q :: q in posts <==> q in old(posts) && old(posts)[q].author != p && old(posts)[q].forum in forums
      ensures forall q :: q in posts ==> posts[q] == old(posts)[q]
      ensures forall n :: n in notifications <==> n in old(notifications) && old(notifications)[n].recipient != p
      ensures forall n :: n in notifications ==> notifications[n] == old(notifications)[n]
    {
      DeleteDependentsOf(p);
      DeleteMemberships(p);
      DeleteUnreferencedProfile(p);
    }

    /** The lessons of course `c`, each once, latest `dateTime` first. */
    method Lessons(c: Id) returns (r: seq<Id>)
      ensures forall l :: l in r <==> l in lessons && lessons[l].course == c
      ensures Ordering.Distinct(r)
      ensures forall i, j :: 0 <= i < j < |r| ==> lessons[r[i]].dateTime >= lessons[r[j]].dateTime
    {
      var key := map l | l in lessons && lessons[l].course == c :: lessons[l].dateTime;
      r := Ordering.ListDescending(key);
    }

    /** The assignments of course `c`, each once, latest `dueDate` first. */
    method Assignments(c: Id) returns (r: seq<Id>)
      ensures forall a :: a in r <==> a in assignments && assignments[a].course == c
      ensures Ordering.Distinct(r)
      ensures forall i, j :: 0 <= i < j < |r| ==> assignments[r[i]].dueDate >= assignments[r[j]].dueDate
    {
      var key := map a | a in assignments && assignments[a].course == c :: assignments[a].dueDate;
      r := Ordering.ListDescending(key);
    }
  }
}
