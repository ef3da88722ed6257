/**
 * The records of the job board: who is signed in, which page is shown, the
 * job listings and the applications sent for them.
 */
module Types {

  datatype Option<T> = None | Some(value: T)

  /** The role of a user. The source spells `Member` as 'user'. */
  datatype Role = Guest | Member | Admin

  /** Moderation status of a listing: only `Approved` ones reach the public feed. */
  datatype Status = Pending | Approved | Rejected

  /** The page the board shows ('home', 'jobs', 'post', 'job-detail', 'apply', 'admin'). */
  datatype View = HomeView | JobsView | PostView | JobDetailView | ApplyView | AdminView

  /** The two sign-in buttons: plain login and the administrator's sign-in. */
  datatype LoginChoice = AsMember | AsAdmin

  /** A signed-in user; the avatar URL is cosmetic and not modelled. */
  datatype User = User(id: string, name: string, email: string, role: Role)

  datatype Job = Job(
    id: string,
    title: string,
    company: string,
    location: string,
    description: string,
    skills: seq<string>,
    status: Status,
    postedBy: string,  // the poster's email
    createdAt: int)

  datatype Application = Application(
    id: string,
    jobId: string,
    jobTitle: string,
    applicantName: string,
    email: string,
    resumeLink: string,
    submittedAt: int)

  /** What the post form hands over: a job without id, status, poster and time. */
  datatype JobDraft = JobDraft(
    title: string,
    company: string,
    location: string,
    description: string,
    skills: seq<string>)

  /** What the apply form hands over: an application without id and time. */
  datatype ApplicationDraft = ApplicationDraft(
    jobId: string,
    jobTitle: string,
    applicantName: string,
    email: string,
    resumeLink: string)

  /** The raw fields of the post form; skills is one comma-separated string. */
  datatype JobForm = JobForm(
    title: string,
    company: string,
    location: string,
    description: string,
    skills: string)

  /** The raw fields of the apply form. */
  datatype ApplicantForm = ApplicantForm(
    applicantName: string,
    email: string,
    resumeLink: string)

  predicate IsAdmin(user: Option<User>) {
    user.Some? && user.value.role == Admin
  }
}
