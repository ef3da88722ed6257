/**
 * The board's component state and its event handlers. Each handler is one
 * atomic step on the state (`user`, `view`, `jobs`, `applications`,
 * `selectedJobId`); ids and timestamps are passed in by the caller.
 */
module Board {
  import opened Types
  import opened Jobs
  import Skills

  const AdminEmail: string := "admin@example.com"
  const MemberEmail: string := "jane@example.com"

  /** The user a sign-in button produces. */
  function SignedIn(choice: LoginChoice): (u: User)
    ensures u.role == Admin <==> choice == AsAdmin
    ensures u.role == Member <==> choice == AsMember
    ensures u.email == (if choice == AsAdmin then AdminEmail else MemberEmail)
  {
    match choice
    case AsAdmin => User("admin-1", "Admin User", AdminEmail, Admin)
    case AsMember => User("user-1", "Jane Doe", MemberEmail, Member)
  }

  /** The three listings the board starts with, created `now` or shortly before. */
  function InitialJobs(now: int): seq<Job> {
    [FrontendListing(now - 10000000), DesignerListing(now - 5000000), JuniorListing(now)]
  }

  function FrontendListing(createdAt: int): Job {
    Job("1", "Senior Frontend Engineer", "TechFlow", "Remote",
        "We are looking for a creative engineer to build beautiful interfaces using React and Tailwind.",
        ["React", "TypeScript", "Tailwind"], Approved, "admin@example.com", createdAt)
  }

  function DesignerListing(createdAt: int): Job {
    Job("2", "Product Designer", "PixelStudio", "New York, NY",
        "Design intuitive user experiences for our next-gen creative tools.",
        ["Figma", "UI/UX", "Prototyping"], Approved, "user@example.com", createdAt)
  }

  function JuniorListing(createdAt: int): Job {
    Job("3", "Junior Developer", "StartUp Inc", "San Francisco, CA",
        "Great opportunity for learning and growth in a fast-paced environment.",
        ["JavaScript", "HTML", "CSS"], Pending, "newuser@example.com", createdAt)
  }

  class App {
    var user: Option<User>
    var view: View
    var jobs: seq<Job>
    var applications: seq<Application>
    var selectedJobId: Option<string>

    /** Every application names a job of the list, by its id and its title. */
    ghost predicate Valid()
      reads this
    {
      forall i :: 0 <= i < |applications| ==>
        HasJob(jobs, applications[i].jobId, applications[i].jobTitle)
    }

    constructor (now: int)
      ensures Valid()
      ensures user == None && view == HomeView && selectedJobId == None
      ensures jobs == InitialJobs(now) && applications == []
    {
      user := None;
      view := HomeView;
      jobs := InitialJobs(now);
      applications := [];
      selectedJobId := None;
    }

    /** `handleLogin`: the administrator's button signs in the administrator, the other one Jane. */
    method Login(choice: LoginChoice)
      requires Valid()
      modifies this
      ensures Valid()
      ensures user == Some(SignedIn(choice))
      ensures user.value.role == (if choice == AsAdmin then Admin else Member)
      ensures user.value.email == (if choice == AsAdmin then "admin@example.com" else "jane@example.com")
      ensures view == old(view) && jobs == old(jobs) && applications == old(applications)
      ensures selectedJobId == old(selectedJobId)
    {
      user := Some(SignedIn(choice));
    }

    /** `handleLogout`: nobody is signed in and the home page is shown. */
    method Logout()
      requires Valid()
      modifies this
      ensures Valid()
      ensures user == None && view == HomeView
      ensures jobs == old(jobs) && applications == old(applications)
      ensures selectedJobId == old(selectedJobId)
    {
      user := None;
      view := HomeView;
    }

    /**
     * `handlePostJob`: the new job goes in front of the list, approved when an
     * administrator posts it and pending otherwise; the jobs page is shown.
     */
    method PostJob(draft: JobDraft, id: string, now: int)
      requires Valid()
      modifies this
      ensures Valid()
      ensures jobs == [PostedJob(draft, old(user), id, now)] + old(jobs)
      ensures |jobs| == |old(jobs)| + 1 && jobs[1..] == old(jobs)
      ensures jobs[0].status == (if IsAdmin(old(user)) then Approved else Pending)
      ensures jobs[0].postedBy == (if old(user).Some? then old(user).value.email else "")
      ensures view == JobsView
      ensures user == old(user) && applications == old(applications)
      ensures selectedJobId == old(selectedJobId)
    {
      var job := PostedJob(draft, user, id, now);
      forall i | 0 <= i < |applications|
        ensures HasJob([job] + jobs, applications[i].jobId, applications[i].jobTitle)
      {
        PrependKeepsJobs(jobs, job, applications[i].jobId, applications[i].jobTitle);
      }
      jobs := [job] + jobs;
      view := JobsView;
    }

    /** The post form's submit: the skills text is parsed, then the job is posted. */
    method SubmitJobForm(form: JobForm, id: string, now: int)
      requires Valid()
      modifies this
      ensures Valid()
      ensures jobs == [PostedJob(JobDraft(form.title, form.company, form.location, form.description,
                                          Skills.ParseSkills(form.skills)), old(user), id, now)] + old(jobs)
      ensures forall k :: 0 <= k < |jobs[0].skills| ==> Skills.WellFormedSkill(jobs[0].skills[k])
      ensures view == JobsView
      ensures user == old(user) && applications == old(applications)
      ensures selectedJobId == old(selectedJobId)
    {
      PostJob(JobDraft(form.title, form.company, form.location, form.description,
                       Skills.ParseSkills(form.skills)), id, now);
    }

    /**
     * `handleApply`: the new application goes in front of the list and the
     * jobs page is shown. Its one caller, the apply form, only ever hands
     * over the id and title of a job it found in the list.
     */
    method Apply(draft: ApplicationDraft, id: string, now: int)
      requires Valid()
      requires HasJob(jobs, draft.jobId, draft.jobTitle)
      modifies this
      ensures Valid()
      ensures applications == [Application(id, draft.jobId, draft.jobTitle, draft.applicantName,
                                            draft.email, draft.resumeLink, now)] + old(applications)
      ensures view == JobsView
      ensures user == old(user) && jobs == old(jobs) && selectedJobId == old(selectedJobId)
    {
      var app := Application(id, draft.jobId, draft.jobTitle, draft.applicantName,
                             draft.email, draft.resumeLink, now);
      applications := [app] + applications;
      view := JobsView;
    }

    /**
     * The apply form's submit: when the selected job is in the list, an
     * application for that job's id and title is added; otherwise nothing
     * happens.
     */
    method SubmitApplicationForm(form: ApplicantForm, id: string, now: int)
      requires Valid()
      modifies this
      ensures Valid()
      ensures var found := FindSelected(old(jobs), old(selectedJobId));
        if found.Some? then
          applications == [Application(id, found.value.id, found.value.title, form.applicantName,
                                       form.email, form.resumeLink, now)] + old(applications)
          && view == JobsView
        else
          applications == old(applications) && view == old(view)
      ensures user == old(user) && jobs == old(jobs) && selectedJobId == old(selectedJobId)
    {
      var found := FindSelected(jobs, selectedJobId);
      if found.Some? {
        var job := found.value;
        var k :| 0 <= k < |jobs| && jobs[k] == job;
        assert HasJob(jobs, job.id, job.title);
        Apply(ApplicationDraft(job.id, job.title, form.applicantName, form.email, form.resumeLink), id, now);
      }
    }

    /** `handleApproveJob`: every job with that id becomes approved. */
    method ApproveJob(id: string)
      requires Valid()
      modifies this
      ensures Valid()
      ensures jobs == SetStatus(old(jobs), id, Approved)
      ensures user == old(user) && view == old(view) && applications == old(applications)
      ensures selectedJobId == old(selectedJobId)
    {
      Moderate(id, Approved);
    }

    /** `handleRejectJob`: every job with that id becomes rejected. */
    method RejectJob(id: string)
      requires Valid()
      modifies this
      ensures Valid()
      ensures jobs == SetStatus(old(jobs), id, Rejected)
      ensures user == old(user) && view == old(view) && applications == old(applications)
      ensures selectedJobId == old(selectedJobId)
    {
      Moderate(id, Rejected);
    }

    method Moderate(id: string, status: Status)
      requires Valid()
      modifies this
      ensures Valid()
      ensures jobs == SetStatus(old(jobs), id, status)
      ensures user == old(user) && view == old(view) && applications == old(applications)
      ensures selectedJobId == old(selectedJobId)
    {
      var moderated := SetStatus(jobs, id, status);
      forall i | 0 <= i < |applications|
        ensures HasJob(moderated, applications[i].jobId, applications[i].jobTitle)
      {
        SetStatusKeepsJobs(jobs, id, status, applications[i].jobId, applications[i].jobTitle);
      }
      jobs := moderated;
    }

    /** A click on a listing of the feed: that job is selected and its page shown. */
    method ShowJob(id: string)
      requires Valid()
      modifies this
      ensures Valid()
      ensures selectedJobId == Some(id) && view == JobDetailView
      ensures user == old(user) && jobs == old(jobs) && applications == old(applications)
    {
      selectedJobId := Some(id);
      view := JobDetailView;
    }

    /** The navigation buttons and links: another page is shown, nothing else changes. */
    method Navigate(target: View)
      requires Valid()
      modifies this
      ensures Valid()
      ensures view == target
      ensures user == old(user) && jobs == old(jobs) && applications == old(applications)
      ensures selectedJobId == old(selectedJobId)
    {
      view := target;
    }

    /** The home page's "Post a Job": the post form when signed in, otherwise a plain sign-in. */
    method StartPosting()
      requires Valid()
      modifies this
      ensures Valid()
      ensures old(user).Some? ==> user == old(user) && view == PostView
      ensures old(user).None? ==> user == Some(SignedIn(AsMember)) && view == old(view)
      ensures jobs == old(jobs) && applications == old(applications)
      ensures selectedJobId == old(selectedJobId)
    {
      if user.Some? {
        view := PostView;
      } else {
        Login(AsMember);
      }
    }
  }

  // ---------------------------------------------------------------------------
  // Which page the board shows

  datatype Page =
    | HomePage
    | FeedPage(listings: seq<Job>)
    | JobDetailPage(job: Job, canApply: bool)
    | JobNotFound
    | PostForm
    | ApplyForm(jobTitle: Option<string>)
    | AdminDashboard(queue: seq<Job>, applications: seq<Application>)
    | AccessDenied

  /**
   * The page for a state. The admin dashboard is shown only to an
   * administrator and everyone else asking for it is denied; the feed and the
   * queue list only approved and only pending jobs; a job's page offers to
   * apply only when the job is approved.
   */
  function Render(view: View, user: Option<User>, jobs: seq<Job>, applications: seq<Application>,
                  selected: Option<string>): (p: Page)
    // the admin guard
    ensures p.AdminDashboard? <==> view == AdminView && IsAdmin(user)
    ensures p.AccessDenied? <==> view == AdminView && !IsAdmin(user)
    ensures p.AdminDashboard? ==> p == AdminDashboard(Queue(jobs), applications)
    ensures p.AdminDashboard? ==> forall k :: 0 <= k < |p.queue| ==> p.queue[k].status == Pending
    // the feed: exactly the approved jobs, in list order
    ensures p.FeedPage? <==> view == JobsView
    ensures p.FeedPage? ==> p.listings == Feed(jobs)
    ensures p.FeedPage? ==> forall k :: 0 <= k < |p.listings| ==> p.listings[k].status == Approved
    // a job's page, found by the first job with the selected id
    ensures p.JobDetailPage? <==> view == JobDetailView && FindSelected(jobs, selected).Some?
    ensures p.JobDetailPage? ==> FindSelected(jobs, selected) == Some(p.job)
    ensures p.JobDetailPage? ==> (p.canApply <==> p.job.status == Approved)
    ensures p.JobNotFound? <==> view == JobDetailView && FindSelected(jobs, selected).None?
    // the apply form, titled with the selected job when there is one
    ensures p.ApplyForm? <==> view == ApplyView
    ensures p.ApplyForm? ==> (p.jobTitle.Some? <==> FindSelected(jobs, selected).Some?)
    ensures p.ApplyForm? && p.jobTitle.Some? ==> p.jobTitle.value == FindSelected(jobs, selected).value.title
    // the pages that show no board data
    ensures p.HomePage? <==> view == HomeView
    ensures p.PostForm? <==> view == PostView
  {
    match view
    case HomeView => HomePage
    case JobsView => FeedPage(Feed(jobs))
    case JobDetailView =>
      (match FindSelected(jobs, selected)
       case None => JobNotFound
       case Some(job) => JobDetailPage(job, job.status == Approved))
    case PostView => PostForm
    case ApplyView =>
      (match FindSelected(jobs, selected)
       case None => ApplyForm(None)
       case Some(job) => ApplyForm(Some(job.title)))
    case AdminView =>
      if IsAdmin(user) then AdminDashboard(Queue(jobs), applications) else AccessDenied
  }
}
