# JobFlow board state, modelled in Dafny

JobFlow is a client-side job board. Visitors browse approved job listings, signed-in users post
listings and apply to them, and an administrator approves or rejects posted listings. All state
lives in memory in the `App` component of `index.tsx`: the signed-in `user`, the current `view`,
the `jobs` list, the `applications` list and the `selectedJobId`.

This project pulls that state and its event handlers out as a small state machine:

- `types.dfy` (module `Types`): the records — `User`, `Job`, `Application`, the moderation
  `Status` (pending, approved, rejected), the `View` and the drafts the two forms hand over.
  The source's role `'user'` is called `Member` here.
- `jobs.dfy` (module `Jobs`): the list operations inside the handlers, as functions with lemmas —
  the moderation rewrite `SetStatus` (`jobs.map` with a conditional update), the filters by status
  that give the public feed and the admin queue, the lookup `FindById` (`jobs.find`), and the job
  built by the post handler.
- `skills.dfy` (module `Skills`): the skills field of the post form,
  `split(',').map(s => s.trim()).filter(s => s)`, with `trim` stripping ECMAScript's WhiteSpace and
  LineTerminator code points.
- `board.dfy` (module `Board`): the component as a class `App` whose methods are the handlers, each
  one atomic step that says what every field is afterwards, and `Render`, the choice of page
  (including the admin guard and the "Apply Now" button).

The class keeps one invariant, `Valid`: every application names a job of the list by that job's
id and title. Jobs are never removed, moderation keeps ids and titles, and the only caller of
`handleApply` passes the id and title of a job it just found. So every handler preserves it.

The moderation handlers do not look at a job's prior status. The code lets a rejected job be
approved, or an approved one be rejected, if the handler is called with its id. The dashboard
only offers the buttons for pending jobs. The model follows the code.

## Model

| member | source | states |
|---|---|---|
| `Jobs.SetStatus` | index.tsx:207-215 | the list keeps its length and order; each job whose id matches gets the new status with every other field unchanged; every other job is unchanged |
| `Jobs.SetStatusMissing` | index.tsx:207-215 | approving or rejecting an id no job has leaves the list unchanged |
| `Jobs.SetStatusIdempotent` | index.tsx:207-208 | moderating the same id to the same status twice gives the same list as once |
| `Jobs.ModerationLeavesOtherLists` | index.tsx:207-215 | after moderating an id to one status, the list of any other status is the old list without that id, in the same order (approving or rejecting takes the job off the admin queue) |
| `Jobs.ModeratedJobListed` | index.tsx:207-215 | after moderation, each job with that id appears in the list of its new status |
| `Jobs.Feed` | index.tsx:299 | the feed holds only approved jobs and is no longer than the list; with `WithStatusMembers` and `WithStatusPositions` it is every approved job, in list order |
| `Jobs.Queue` | index.tsx:494 | the queue holds only pending jobs and is no longer than the list; with `WithStatusMembers` and `WithStatusPositions` it is every pending job, in list order |
| `Jobs.WithStatus` | index.tsx:299 | the filtered list is no longer than the input and holds only jobs of the requested status |
| `Jobs.WithStatusMembers` | index.tsx:299 | a job is in the feed (or queue) if and only if it is in the list and has status approved (or pending) |
| `Jobs.WithStatusPositions` | index.tsx:494 | the filter takes its jobs from strictly increasing positions of the list and takes every job of the status, so it gives exactly those jobs in list order |
| `Jobs.WithStatusAppend` | index.tsx:299 | filtering a concatenation is the concatenation of the filtered parts |
| `Jobs.StatusPartition` | index.tsx:494 | the feed and the queue share no job, rejected jobs are in neither, and the feed, the queue and the rejected jobs add up to the whole list |
| `Jobs.FindById` | index.tsx:343 | a found job is in the list and has the id; nothing is found exactly when no job has the id |
| `Jobs.FindByIdFirst` | index.tsx:447 | the lookup returns the job at the first position with that id |
| `Jobs.FindSelected` | index.tsx:343-344 | with no selection nothing is found; otherwise it is exactly the lookup of the selected id, so a found job is in the list and has that id, and nothing is found exactly when no job has it |
| `Jobs.FindSelectedFirst` | index.tsx:447 | the job the apply form and the job page find is the one at the first position carrying the selected id |
| `Jobs.PostedJob` | index.tsx:180-187 | the new job has the draft's fields, the given id and time; it is approved if and only if the poster is an admin and pending otherwise; it is posted by the user's email, or by "" when nobody is signed in |
| `Jobs.PostedJobAwaitsApproval` | index.tsx:184-188 | a job posted by a non-admin joins the front of the admin queue, stays off the feed, and is in the feed once its id is approved |
| `Jobs.AdminPostIsPublished` | index.tsx:184-188 | a job posted by an admin goes to the front of the feed and not into the queue |
| `Skills.ParseSkills` | index.tsx:388 | `split(',').map(s => s.trim()).filter(s => s)`: every skill it yields is non-empty, trimmed and comma-free; which skills, in which order, is fixed by `ParseSkillsAround` and `ParseSkillsPiece` below, and its stages `Split`, `Trim`, `TrimAll` and `DropEmpty` by the lemmas after it |
| `Skills.Split` | index.tsx:388 | splitting gives at least one piece, as `"".split(',')` gives `[""]`; `JoinSplit` and `SplitJoin` show it is the inverse of joining |
| `Skills.TrimStartSpec` | index.tsx:388 | the start-trimmed text is a suffix of the input; only whitespace was cut; it does not start with whitespace |
| `Skills.TrimEndSpec` | index.tsx:388 | the end-trimmed text is a prefix of the input; only whitespace was cut; it does not end with whitespace |
| `Skills.TrimSpec` | index.tsx:388 | the trimmed text is a stretch of the input with only whitespace around it; it neither starts nor ends with whitespace; a trimmed input comes back unchanged |
| `Skills.TrimCommaFree` | index.tsx:388 | trimming comma-free text leaves it comma-free |
| `Skills.TrimSkipsWhitespace` | index.tsx:388 | a leading whitespace character does not change the trimmed text |
| `Skills.SplitSeparatorFree` | index.tsx:388 | no piece of a split contains the separator |
| `Skills.SplitWithoutSeparator` | index.tsx:388 | text without the separator splits into one piece, itself |
| `Skills.SplitAround` | index.tsx:388 | splitting text around one separator gives the pieces of the left side followed by those of the right side |
| `Skills.JoinSplit` | index.tsx:388 | joining the pieces of a split with the separator gives back the input |
| `Skills.SplitJoin` | index.tsx:388 | splitting joined separator-free pieces gives back the pieces |
| `Skills.TrimAllSpec` | index.tsx:388 | trimming every piece keeps the number of pieces, and each piece becomes the trimmed piece at the same position |
| `Skills.TrimAllAppend` | index.tsx:388 | trimming every piece of a concatenation is the concatenation of the trimmed parts |
| `Skills.DropEmptyMembers` | index.tsx:388 | a piece is kept if and only if it is in the input and non-empty |
| `Skills.DropEmptyAppend` | index.tsx:388 | dropping the empty pieces of a concatenation is the concatenation of the filtered parts |
| `Skills.ParsedSkillsWellFormed` | index.tsx:388 | every piece the split, trim and filter chain keeps is non-empty, has no leading or trailing whitespace and no comma |
| `Skills.ParseSkillsAround` | index.tsx:388 | parsing text with a comma in it parses each side and concatenates the results, so skills come out in input order |
| `Skills.ParseSkillsPiece` | index.tsx:388 | comma-free text parses to its trimmed self, or to nothing when that is empty |
| `Skills.ParseSkillsSkipsWhitespace` | index.tsx:388 | a leading whitespace character does not change the parsed skills |
| `Skills.ParseListed` | index.tsx:388 | a well-formed skill followed by ", " and more text parses to that skill followed by the skills of the rest |
| `Skills.ParseFormatted` | index.tsx:388 | well-formed skills written as "a, b, c" parse back to the same skills |
| `Board.App.constructor` | index.tsx:152-157 | the board starts with nobody signed in, the home page, the three initial jobs of lines 42-76 (two approved, one pending), no applications and no selection |
| `Board.SignedIn` | index.tsx:162-172 | the admin button gives a user with role admin and email admin@example.com, the other button role user and email jane@example.com |
| `Board.App.Login` | index.tsx:162-172 | the admin button signs in a user with role admin and email admin@example.com, the other one role user and email jane@example.com; nothing else changes |
| `Board.App.Logout` | index.tsx:174-178 | nobody is signed in and the home page is shown; the lists and the selection are unchanged |
| `Board.App.PostJob` | index.tsx:180-194 | exactly one new job is put at index 0 and the old list follows unchanged; it is approved if and only if the poster is an admin; the jobs page is shown |
| `Board.App.SubmitJobForm` | index.tsx:384-390 | the posted job's skills are the parsed skills field, each non-empty, trimmed and comma-free |
| `Board.App.Apply` | index.tsx:196-205 | exactly one new application is put at index 0 and the old list follows unchanged; the jobs page is shown; the jobs list is unchanged |
| `Board.App.SubmitApplicationForm` | index.tsx:446-459 | when the selected job is in the list, an application carrying that job's id and title is added; otherwise neither the applications nor the view change |
| `Board.App.ApproveJob` | index.tsx:207-210 | the jobs list becomes the moderation rewrite to approved; user, view, applications and selection are unchanged |
| `Board.App.RejectJob` | index.tsx:212-215 | the jobs list becomes the moderation rewrite to rejected; user, view, applications and selection are unchanged |
| `Board.App.ShowJob` | index.tsx:317 | the clicked job is selected and its page is shown |
| `Board.App.Navigate` | index.tsx:232-247 | only the view changes |
| `Board.App.StartPosting` | index.tsx:280 | a signed-in user gets the post form; otherwise a plain sign-in happens and the view stays |
| `Board.Render` | index.tsx:562-568 | each view gives its own page: the admin dashboard, showing `Queue(jobs)` and the applications, if and only if the view is admin and the user is an admin, "Access Denied" if and only if the view is admin and the user is not; the jobs view shows exactly `Feed(jobs)`; the job-detail view shows the selected job (first with its id) when found, with "Apply Now" if and only if it is approved, and "Job not found" otherwise; the apply view is titled with the selected job when found; home and post views show their forms |

## Left out

- Rendering: the markup, class names, icons and the `Button`, `Input`, `TextArea` and `Badge`
  components. Only the choice of page and the "Apply Now" condition are modelled, in `Render`.
- The toast message, its three-second timer and the avatar URL: they are cosmetic side effects.
- Random ids and `Date.now()`: the handlers take the id and the time as parameters. Ids are not
  claimed to be unique, because the code does not make them so.
- React hook semantics (batched updates, handlers closing over a stale `jobs`) and mounting into
  the page: each handler is one atomic step on the current state.
- Browser form validation (`required`, `type="email"`): the browser enforces it, not the code.
- `Skills.IsWhitespace`: JavaScript strings are UTF-16 code units; the model works on Unicode
  scalar values. The whitespace set is the same, since every whitespace code point is a single
  unit.
- `Board.App.Navigate` and `Board.App.ShowJob` accept every target: the navigation bar offers the
  post page only to a signed-in user and the admin page only to an admin, and a job is selected only
  from the approved feed; the model allows the wider set of steps, and `Render` still guards the
  admin page.
- `Board.App.Apply` requires the job it names to be in the list. This is what its only caller
  guarantees; direct calls with other drafts are not modelled.
