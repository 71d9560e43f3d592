# study_buddy: authorization and enrolment rules, modelled in Dafny

study_buddy is a Django course-management app. Teachers create courses, lessons
and assignments. Students are enrolled in courses, view them, and mark
assignments complete. This project models the app's database tables and the
request handlers that check a principal's role before they read or change
those tables. It proves what each handler does to the store and when it
refuses.

Files:

- `wrappers.dfy` (module `Wrappers`): `Option`, `Result`, and the failure kinds
  `Forbidden`, `NotFound`, `Invalid` and `Conflict`.
- `models.dfy` (module `Models`): the two roles, one record per table, and the
  class `Store`. `Store` keeps one map per table from primary key to row, plus
  one key counter per table. The `students` and `studentsCompleted`
  many-to-many relations are sets held in the course and assignment rows.
  `Valid()` is the schema's integrity:
  - every foreign key and every set member names a stored row;
  - every course has at most one forum;
  - every counter is above its table's keys.

  Each method keeps `Valid()`. The `on_delete=CASCADE` deletions remove
  dependents first, one table at a time, so every step leaves a consistent
  database.
- `ordering.dfy` (module `Ordering`): the `Meta.ordering` of lessons and
  assignments. This is the sorted listing the database returns, largest key
  first.
- `policy.dfy` (module `Policy`): `Decide`, the pure role check. It sees only
  the principal's role and, for the course page, whether the principal is
  enrolled.
- `views.dfy` (module `Views`): one function or method per request handler. A
  handler resolves the ids, asks `Decide` where the source makes a role
  check, and then changes the store or returns the failure. Three client methods walk through the behaviour the
  app's tests exercise. `CreationScenario` covers a teacher who creates a
  course and a student who is refused. `EnrolmentScenario` shows a course that
  is closed to a student, then open while the student is enrolled, then closed
  again. `DeletionScenario` covers a student refused a delete and a non-owning
  teacher allowed one.

Modelling conventions:

- A principal is identified by the id of its profile. A principal without a
  profile makes the source raise when it reads `user.userprofile`. Here that
  is `Failure(NotFound)`, and the store is not changed.
- A lookup that raises `DoesNotExist` is also `Failure(NotFound)` with no
  change. This covers `Course.objects.get` and `UserProfile.objects.get`. A
  lookup that answers 404 (`get_object`, `get_object_or_404`) is treated the
  same way.
- The checks run in the source's order. The course page looks up the course
  before it checks the role. Create, update and delete check the role first,
  so a student who asks to delete a missing course gets `Forbidden`, not
  `NotFound`.
- Dates are whole numbers (days for `DateField`, microseconds for
  `DateTimeField`). Only their order matters.

The model keeps these gaps of the app as they are:

- Any teacher may update or delete any course. No ownership check is made.
- Adding or removing a student has no login or role check, and the added
  profile does not need the student role.
- Creating a lesson or an assignment has no login or role check.
- Marking an assignment complete does not require enrolment in its course.
- Missing ids on the enrolment handlers make the source raise. They do not
  produce a 404.
- `start_date <= end_date` is not enforced.

## Model

| member | source | states |
|---|---|---|
| `Models.RoleName` | study_buddy/models.py:10-13 | each role is stored as its own choice string, `"student"` or `"teacher"` |
| `Models.ParseRole` | study_buddy/models.py:10-16 | exactly the two declared choice strings are roles, and reading one gives back the role whose stored name it is |
| `Models.Store.constructor` | study_buddy/models.py:5-162 | an empty database satisfies every integrity constraint |
| `Models.Store.CreateProfile` | study_buddy/models.py:10-17 | a profile row inserted without a role gets the field's default, student; a string outside the choices is refused with nothing saved, because the model's role is closed (see Left out); otherwise one new row under a fresh key |
| `Models.Store.CreateCourse` | study_buddy/models.py:27-41 | a new course under a fresh key, taught by the given profile, with no students |
| `Models.Store.UpdateCourse` | study_buddy/views.py:127-137 | only title and dates change; teacher and enrolment are kept |
| `Models.Store.Enroll` | study_buddy/models.py:39 | the profile joins the course's student set; adding a member again leaves the store unchanged; other courses are untouched |
| `Models.Store.Unenroll` | study_buddy/models.py:39 | the profile leaves the course's student set; removing a non-member leaves the store unchanged |
| `Models.Store.CreateLesson` | study_buddy/models.py:51-59 | a new lesson under a fresh key, belonging to an existing course |
| `Models.Store.CreateAssignment` | study_buddy/models.py:70-89 | a new assignment under a fresh key, belonging to an existing course, completed by nobody |
| `Models.Store.Complete` | study_buddy/models.py:84-89 | the profile joins the assignment's completion set; adding a member again leaves the store unchanged |
| `Models.Store.CreateForum` | study_buddy/models.py:100-106 | a second forum for a course is refused (the one-to-one link); otherwise one new forum under a fresh key |
| `Models.Store.CreatePost` | study_buddy/models.py:116-131 | a new post under a fresh key, in an existing forum, by an existing profile; both timestamps are taken from the one clock reading passed in |
| `Models.Store.CreateNotification` | study_buddy/models.py:141-155 | a new notification under a fresh key for an existing profile, unread |
| `Models.Store.DeletePostsIn` | study_buddy/models.py:121 | exactly the posts of the given forums are deleted; the rest keep their values |
| `Models.Store.DeleteForumsOf` | study_buddy/models.py:105 | exactly the forums of the given courses are deleted, once no post is left in them |
| `Models.Store.DeleteForumsWithPostsOf` | study_buddy/models.py:100-127 | the forums of the given courses and exactly the posts in those forums are deleted |
| `Models.Store.DeleteLessonsOf` | study_buddy/models.py:56 | exactly the lessons of the given courses are deleted |
| `Models.Store.DeleteAssignmentsOf` | study_buddy/models.py:75-89 | exactly the assignments of the given courses are deleted, with their completion sets |
| `Models.Store.DeleteCourseRows` | study_buddy/models.py:27-41 | exactly the given courses are deleted, once none of their children is left |
| `Models.Store.DeleteCourses` | study_buddy/models.py:51-121 | deleting courses deletes all their lessons, all their assignments, their forum and that forum's posts; afterwards none can be found; every other row is unchanged |
| `Models.Store.DeleteForum` | study_buddy/models.py:121 | deleting a forum deletes exactly its posts |
| `Models.Store.DeletePostsBy` | study_buddy/models.py:122-127 | exactly the posts written by the profile are deleted |
| `Models.Store.DeleteNotificationsOf` | study_buddy/models.py:146-151 | exactly the notifications sent to the profile are deleted |
| `Models.Store.DeleteEnrolments` | study_buddy/models.py:39 | the profile leaves every enrolment set; all courses remain with the same teacher |
| `Models.Store.DeleteCompletions` | study_buddy/models.py:84-89 | the profile leaves every completion set; all assignments remain |
| `Models.Store.DeleteMemberships` | study_buddy/models.py:39-89 | the profile leaves every enrolment set and every completion set |
| `Models.Store.DeleteUnreferencedProfile` | study_buddy/models.py:5-17 | a profile row that nothing refers to any more is deleted without breaking integrity |
| `Models.Store.DeleteCoursesTaughtBy` | study_buddy/models.py:33-38 | the courses taught by the profile go, with their lessons, assignments, forums and posts |
| `Models.Store.DeleteDependentsOf` | study_buddy/models.py:33-151 | everything that cascades from a profile goes: its courses with their cascade, its posts and its notifications |
| `Models.Store.DeleteProfile` | study_buddy/models.py:33-155 | deleting a profile deletes the courses it teaches (and through them their lessons, assignments, forum and posts), its posts and its notifications; it leaves every enrolment and completion set; nothing else changes |
| `Models.Store.Lessons` | study_buddy/models.py:56-64 | a course's lessons, each listed once, with non-increasing `date_time` |
| `Models.Store.Assignments` | study_buddy/models.py:75-94 | a course's assignments, each listed once, with non-increasing `due_date` |
| `Ordering.InsertDescendingCorrect` | study_buddy/models.py:61-64 | inserting a row into a descending listing keeps it descending and adds exactly that row |
| `Ordering.InsertDescendingDistinct` | study_buddy/models.py:61-64 | inserting a row that was not listed lists no row twice |
| `Ordering.HeadDominates` | study_buddy/models.py:61-64 | in a descending listing the first row's key bounds every later key |
| `Ordering.ListDescending` | study_buddy/models.py:91-94 | the listing holds every row of the query exactly once, in descending key order |
| `Policy.Decide` | study_buddy/views.py:99-173 | a student is refused creating, updating and deleting courses and viewing a course they are not enrolled in; a teacher is refused only marking completion; ownership is never consulted |
| `Policy.EnrolmentOnlyWidens` | study_buddy/views.py:99-104 | being enrolled never removes a permission and matters only for viewing a course |
| `Views.Home` | study_buddy/views.py:67-81 | a student's home list is the courses whose students contain them; a teacher's is the courses they teach; with no profile it is empty |
| `Views.CourseDetail` | study_buddy/views.py:92-104 | a missing course is NotFound; the page is Forbidden exactly when the viewer is a student not in the course's students; any teacher may view, owner or not; the page shows the course and the student profiles not enrolled in it |
| `Views.HomeCoursesAreViewable` | study_buddy/views.py:67-104 | every course on the home list opens for its viewer; for a student the home list is exactly the set of courses that open |
| `Views.CourseCreate` | study_buddy/views.py:107-121 | creation succeeds iff the role is teacher, and the new course's teacher is the creator; a student gets Forbidden and no course is added |
| `Views.CourseUpdate` | study_buddy/views.py:127-137 | a student gets Forbidden and the course is unchanged; any teacher may update any existing course, owner or not |
| `Views.CourseDelete` | study_buddy/views.py:143-151 | a non-teacher gets Forbidden and the course still exists; a teacher's delete removes the course and everything that cascades from it, and nothing else |
| `Views.AssignmentComplete` | study_buddy/views.py:167-173 | a student's profile joins the completion set, idempotently; for a teacher the set is unchanged; both succeed alike |
| `Views.LessonCreate` | study_buddy/views.py:221-224 | a lesson is added to an existing course for any caller; a missing course fails with no change |
| `Views.AssignmentCreate` | study_buddy/views.py:190-193 | an assignment is added to an existing course for any caller; a missing course fails with no change |
| `Views.AddStudentToCourse` | study_buddy/views.py:258-263 | for any caller, the profile ends up in the course's students; adding twice changes nothing; other courses are untouched; a missing course or profile fails with no change |
| `Views.RemoveStudentFromCourse` | study_buddy/views.py:271-275 | the profile ends up outside the course's students, all other members stay, removing a non-member is a successful no-op; a missing id fails with no change |

## Left out

- Login, logout and registration (`UserLoginView`, `user_logout`, `UserRegisterView`) are not modelled. They are delegated to Django's authentication and password hashing, which is not part of this model. `Models.Store.CreateProfile` models an insert into the profile table with the field default of `role`. It does not model registration's profile form.
- Anonymous requests to the handlers that read the caller's profile are not modelled separately. Only the home page's login mixin turns them away (views.py:60). On the course page, create and update, the profile read (views.py:102, 117, 137) runs before the login mixin and raises. On delete, mark-complete and assignment creation, there is no login mixin at all, and the profile read raises the same way (views.py:149, 169, 191). The model has no anonymous principal. The handlers that never read the caller (add or remove a student, lesson creation) take no caller in the model either, so anonymous callers succeed there just as in the source. A principal without a profile is modelled as described above.
- HTTP presentation is not modelled: templates, redirects, status codes and flash messages. Outcomes are `Success`, `Forbidden` or `NotFound`.
- The forms' rendering context is not modelled (the `course` that `LessonCreateView` and `AssignmentCreateView` show).
- `LessonUpdateView` and `AssignmentUpdateView` are not modelled. They only save form fields and make no check.
- Form-level validation is not modelled: empty titles, malformed dates, and the course field of `AssignmentForm`.
- A POST to the add-student handler without `student_pk` is not told apart from one naming a missing profile.
- Registration saves the `User` row before it checks the profile form (views.py:50-56). The form requires `role`, so a POST without one saves no profile and still leaves a `User`. That `User` is the principal without a profile described above.
- Views.AssignmentCreate: does not model the stray `form.instance.teacher` line (views.py:191). `Assignment` has no teacher field, and the line only reads the caller's profile. For an anonymous caller, or a caller without a profile, that read raises, so the request fails. The model has no caller here, so its `AssignmentCreate` succeeds in that case, where the conventions above would give `Failure(NotFound)`.
- Models.Store.CreatePost: `auto_now_add` and `auto_now` (models.py:130-131) each read the clock, so the two stored times can differ slightly. The model takes both from the one `now` parameter.
- Timestamps come from the wall clock in the source. Here they are a parameter. `updated_at` is never refreshed, because no handler edits a post.
- Notifications are never marked read, because no handler does so.
- Deleting the `User` row is not modelled. That table belongs to the authentication framework. Its cascade reaches the profile, and that step is `Models.Store.DeleteProfile`.
- `Role` has only the two choices, so the model cannot hold the other strings the column accepts. `ParseRole` refuses any other string.
- Models.Store.CreateProfile: the database insert stores any string in `role`. Only form validation (`UserProfileForm`, views.py:52-53) refuses one outside the choices. The model refuses it because `Role` is closed. A stored `"admin"` profile would act like a teacher on home and the course page (views.py:73-76, 102) and like a student on create, update and delete (views.py:117, 137, 149). That mixed behaviour is not modelled.
- Primary keys are unbounded naturals. The database's integer width is not modelled.
- Rows with equal keys can come back in any order. The listings promise only non-increasing keys.
- Transactions and concurrency are not modelled. Each handler is one atomic step.
