/** The role checks the views make before they act. Each check sees only the
    principal's role and, for viewing a course, whether the principal is
    enrolled in it; course ownership is never consulted. */
module Policy {
  import opened Models

  /** The actions guarded by a role check. Enrolling or removing a student
      and creating a lesson or an assignment have no check at all. */
  datatype Action =
    | ViewCourse       // course detail page
    | CreateCourse
    | UpdateCourse
    | DeleteCourse
    | MarkComplete     // record an assignment as completed

  datatype Decision = Allow | Deny

  /** Whether a principal with `role` may perform `action`; `enrolled` says
      whether the principal is among the course's students. */
  function Decide(role: Role, action: Action, enrolled: bool): (d: Decision)
    // What a student may not do.
    ensures role == Student ==>
      (d == Deny <==> action in {CreateCourse, UpdateCourse, DeleteCourse} || (action == ViewCourse && !enrolled))
    // What a teacher may not do: only recording completions, which is a student's act.
    ensures role == Teacher ==> (d == Deny <==> action == MarkComplete)
  {
    match action
    case ViewCourse => if role == Student && !enrolled then Deny else Allow
    case CreateCourse | UpdateCourse | DeleteCourse => if role == Teacher then Allow else Deny
    case MarkComplete => if role == Student then Allow else Deny
  }

  /** Being enrolled never takes a permission away, and matters only for
      viewing a course. */
  lemma EnrolmentOnlyWidens(role: Role, action: Action)
    ensures Decide(role, action, false) == Allow ==> Decide(role, action, true) == Allow
    ensures action != ViewCourse ==> Decide(role, action, false) == Decide(role, action, true)
  {
  }
}
