# Club and project access control, modelled in Dafny

This project models the request handlers of the club/project directory backend. Each handler is a
step of a sequential state machine over an in-memory database. The handlers cover:

- **Club administration:** the overall admin and club heads assign and remove club heads. There
  are also the club list, a club's detail page and the club-head dashboard.
- **Projects:** the project list, a project's detail page and search. The overall admin creates
  projects through the `create_project` helper, and project editors edit them.
- **Accounts and sessions:** registration, login, logout, the logged-in check and the post-login
  redirect.

Every handler is specified twice:

- **A function.** It takes the database (`Models.Db`, one sequence per table) and the request
  inputs, and gives the new database and the response (`Ok(payload)` or `Err(message)`). Messages
  are the exact strings the endpoints return.
- **A method.** It changes a `Models.Database` object (or a `UserViews.SessionStore`) step by step,
  saving rows in the order the endpoint saves them. Its contract ties the new state and the
  response to the function.

Lemmas about the functions state what the endpoints promise:

- the guard order
- what changes and what does not
- idempotence of assign
- round trips between create/edit and the detail page, and between register, login, the
  logged-in check and logout
- preservation of the database invariant `Models.Valid`

`Models.Valid` says:

- ids are positional;
- emails and project names are unique;
- every foreign key points at an existing row;
- there is at most one relationship row per (club, user) or (project, user) pair. The schema does
  not enforce this; the handlers keep it.

Clubs and projects are newest first, because the models order them by descending creation time.
Relationship and roster tables are queried without ORDER BY, and SQL gives such a query no
defined order. The model assumes insertion order for them. No handler deletes users, clubs or projects, so user `k` is
`users[k - 1]` and club or project `k` sits `k` rows from the end of its table.

Several handlers are not atomic, and the model keeps their partial effects:

- An assign that fails after `club.head` was saved keeps the saved head.
- `create_project` keeps every row it inserted before a storage error. The storage error is the
  `fault` parameter, which names the insert that raises.
- Edit saves link, abstract and techstack before it reads the members field.
- Edit deletes the roster before it walks the new members list.

Edit parses the members field, then deletes the roster, then walks the list
(api/views/project.py:216-230). Every error is answered with "Invalid members data format: "
and the error's text, but only text that is not valid JSON leaves the roster unchanged:

- a parsed value that cannot be iterated leaves the roster empty;
- a list with an element that is not a dictionary leaves the entries before that element.

`ProjectViews.EditKeepsPartialRoster` states both.

Login writes the session's `user_id` and then calls Django's `login()`, which flushes a session
that carries another user's authentication id. Logout removes only `user_id` and leaves that id
in place. So when a second account logs in on a browser where a first one logged out, the flush
erases the `user_id` the view has just written. The login answers with the profile, yet the
session is not logged in. `UserViews.SwitchUserLosesLogin` states this.

The access gate of Edit admits the privileges "Edit" and "Admin". Only View and Admin are seeded
in the catalogs, so only Admin can pass in practice.

## Model

| member | source | states |
|---|---|---|
| Common.Get | api/views/admin.py:90-100 | `get` tells apart no row (DoesNotExist), exactly one row (its index, and no other row matches) and several rows (two matching indices) |
| Common.GetSingle | api/views/admin.py:90-100 | when exactly one row matches, `get` returns that row |
| Common.ContainsAt | api/views/project.py:91-100 | the `icontains` substring test holds iff the needle occurs at some position of the haystack |
| Models.MigratedValid | api/migrations/0003_seed_privileges.py:16-33 | the migrated database satisfies the invariant; each catalog resolves `get(name="Admin")` to a single row, with code 2 |
| AdminViews.GrantAdmin | api/views/admin.py:48-56 | get_or_create plus privilege write: with one row per pair it succeeds; the pair ends with exactly one row, at the given privilege; a new row is appended only if the pair had none; other rows stay in place |
| AdminViews.AppendPairUpserts | api/views/admin.py:49-53 | get_or_create with no row for the pair appends one, which becomes the pair's only row |
| AdminViews.OverwritePairUpserts | api/views/admin.py:54-56 | overwriting the privilege of the pair's only row keeps it the only row, at the new privilege |
| AdminViews.GrantAdminIdempotent | api/views/admin.py:49-56 | granting the same privilege a second time leaves the relationship table as the first grant left it |
| AdminViews.DeleteRowKeepsInvariant | api/views/admin.py:90-91 | deleting the pair's row keeps one-row-per-pair and valid foreign keys, and leaves no row for that pair |
| AdminViews.AssignHead | api/views/admin.py:32-61 | club is checked before user, each failure changes nothing; with both found the head is saved (when requested) before the Admin lookup; success iff the Admin catalog row is unique and the pair has at most one row; success upserts the Admin row; a failure keeps the saved head and the relationships |
| AdminViews.AssignByAdmin | api/views/admin.py:29-61 | a non-admin caller gets the permission error and no change; success means the club and user exist and the club's head is now that user |
| AdminViews.AssignByAdminSeeded | api/views/admin.py:44-58 | with the seeded catalog and one row per pair, assigning an existing user to an existing club succeeds, sets the head, and leaves exactly one row for the pair with Privilege(2, "Admin") |
| AdminViews.AssignByClubHead | api/views/admin.py:125-152 | callers without Admin access are refused with no change; the clubs table (and so `club.head`) is never changed by this path |
| AdminViews.RemoveHead | api/views/admin.py:79-103 | club before user; no row for the pair gives "User is not a club head in this club." with no change; with one row it succeeds; success deletes that one row whatever its privilege, clears `club.head` exactly when it named the user, and changes nothing else; any error changes nothing |
| AdminViews.RemoveByAdmin | api/views/admin.py:76-103 | non-admins are refused with no change; success removes exactly one relationship row and no club |
| AdminViews.RemoveByClubHead | api/views/admin.py:167-193 | callers without Admin access are refused with no change; success removes exactly one relationship row and no club |
| AdminViews.SetHeadKeepsClubs | api/views/admin.py:44-45 | saving an existing user as a club's head, or clearing the head, keeps club ids positional and heads pointing at users |
| AdminViews.UpsertKeepsRefer | api/views/admin.py:49-56 | the upsert of a row for an existing club and user keeps every relationship pointing at existing rows |
| AdminViews.AssignHeadKeepsValid | api/views/admin.py:42-61 | every assign outcome, including the partial failure, keeps the database invariant |
| AdminViews.RemoveHeadKeepsValid | api/views/admin.py:89-96 | every remove outcome keeps the database invariant |
| AdminViews.AssignByAdminIdempotent | api/views/admin.py:42-58 | assigning the same head twice gives the state and response of assigning once |
| AdminViews.ClubsListing | api/views/admin.py:204-216 | one entry per club, in table order, with the head shown by email or None |
| AdminViews.AdminUsers | api/views/admin.py:235-244 | a user summary is listed iff some relationship row gives that user Admin on the club |
| AdminViews.ClubProjects | api/views/admin.py:247-257 | a project summary is listed iff some project of that club has it |
| AdminViews.ClubDetailOf | api/views/admin.py:228-269 | "Club does not exist." iff no club has the name; otherwise the detail of the club with that name: its view, its Admin holders and its projects |
| AdminViews.DashboardOf | api/views/admin.py:286-333 | one entry per Admin relationship row of the caller, in row order, each for that row's club with its Admin holders and projects |
| AdminViews.EntryFor | api/views/admin.py:294-332 | a dashboard entry holds the view of the club its relationship row names (id, name, abstract, link, image, head email), that club's Admin holders and its projects |
| AdminViews.DashboardClubs | api/views/admin.py:321-329 | every dashboard entry shows the details of an existing club as that club's row holds them |
| AdminViews.DashboardStep | api/views/admin.py:293-332 | one more relationship row adds that club's entry when it is an Admin row of the caller, and nothing otherwise |
| AdminViews.AssignHeadSteps | api/views/admin.py:32-61 | the step-by-step assign produces the state and response of AssignHead |
| AdminViews.RemoveHeadSteps | api/views/admin.py:79-103 | the step-by-step remove produces the state and response of RemoveHead |
| AdminViews.AdminAssignClubHead | api/views/admin.py:25-61 | the endpoint method matches AssignByAdmin |
| AdminViews.AdminRemoveClubHead | api/views/admin.py:72-103 | the endpoint method matches RemoveByAdmin |
| AdminViews.ClubHeadAssignClubHead | api/views/admin.py:120-152 | the endpoint method matches AssignByClubHead |
| AdminViews.ClubHeadRemoveClubHead | api/views/admin.py:163-193 | the endpoint method matches RemoveByClubHead |
| AdminViews.AdminClubsList | api/views/admin.py:204-216 | the append loop returns ClubsListing |
| AdminViews.ClubHeadsQuery | api/views/admin.py:235-244 | the append loop returns AdminUsers |
| AdminViews.ClubProjectsQuery | api/views/admin.py:247-257 | the append loop returns ClubProjects |
| AdminViews.AdminClubDetail | api/views/admin.py:228-269 | the endpoint returns ClubDetailOf |
| AdminViews.EntryQuery | api/views/admin.py:294-332 | the two inner loops and the club view build EntryFor |
| AdminViews.DashboardRow | api/views/admin.py:293-332 | the entries one relationship row adds: EntryFor of its club for an Admin row of the caller, none otherwise |
| AdminViews.ClubHeadDashboard | api/views/admin.py:286-333 | the nested loops return DashboardOf |
| ProjectUtilities.CreateProject | api/controllers/project_utilities.py:6-40 | no Admin project privilege gives False and no change; True iff Admin exists and no insert raises; on success the project (next id, techstack or []) is prepended, the head gets one relationship with the first Admin row, and one member row per entry is appended; only the project tables change |
| ProjectUtilities.CreateProjectFault | api/controllers/project_utilities.py:10-40 | a failing insert keeps exactly the earlier inserts: nothing for the project row, the project for the relationship, the project, the relationship and the earlier roster rows for a roster row; the answer is False |
| ProjectUtilities.MembersOfAppended | api/controllers/project_utilities.py:27-33 | the roster of a new project is exactly the rows inserted for it |
| ProjectUtilities.CreateProjectEffect | api/controllers/project_utilities.py:13-21 | on success the project is found by its name at the head of the table, with the next id, the given fields and the techstack or []; users are unchanged |
| ProjectUtilities.CreateProjectRoster | api/controllers/project_utilities.py:22-33 | on success the head has exactly one relationship to the project, at Admin, and its roster is the entries in order |
| ProjectUtilities.PrependProjectKeepsTable | api/controllers/project_utilities.py:13-21 | inserting a project with an unused name keeps ids positional, names unique and foreign keys valid |
| ProjectUtilities.AppendFreshRelationshipKeeps | api/controllers/project_utilities.py:22-26 | the head's relationship to a brand-new project keeps one row per pair |
| ProjectUtilities.CreateProjectKeepsValid | api/controllers/project_utilities.py:10-40 | whichever insert fails, the database invariant holds afterwards |
| ProjectUtilities.InsertRoster | api/controllers/project_utilities.py:27-33 | the member loop appends the entries in order up to the failing insert, and reports whether it got through all of them |
| ProjectUtilities.CreateProjectSteps | api/controllers/project_utilities.py:6-40 | the insert-by-insert helper, with its member loop, produces CreateProject |
| ProjectViews.ClubNameOf | api/views/project.py:34-35 | the club's name when a club has the id, None exactly when none has |
| ProjectViews.Dicts | api/views/project.py:16-41 | list_to_dict keeps length and order; each entry carries the project's fields, image, techstack and its club's name |
| ProjectViews.DictClubName | api/views/project.py:34-35 | in a consistent database every project's entry names its own club |
| ProjectViews.MemberViews | api/views/project.py:67-73 | one entry per roster row, in order, with name and picture |
| ProjectViews.DetailOf | api/views/project.py:61-85 | "Project does not exist" iff no project has the name; otherwise that project's id, its head's email and its roster |
| ProjectViews.MatchesOccurs | api/views/project.py:93-97 | the search filter holds iff the folded query occurs at some position of the folded head name, project name or club name |
| ProjectViews.SearchOf | api/views/project.py:91-100 | a project is listed iff the folded query occurs in the folded head name, project name or club name |
| ProjectViews.MemberInputs | api/views/project.py:150-155 | walks the list up to the first element that is not a dictionary (the error), turning each dictionary into an entry with its picture attached |
| ProjectViews.Attached | api/views/project.py:143-157 | blank gives no members; bad JSON, a non-iterable value or a non-dictionary element give that error; otherwise one entry per element with name and attached picture |
| ProjectViews.CreateOfGuards | api/views/project.py:115-177 | guards in order: admin, user, club, name unused in any club, members data, each failure with its own message and no change; once all pass, the state is create_project's and the answer is "Invalid details" iff it returns False; success iff all pass and create_project returns True |
| ProjectViews.CreateOf | api/views/project.py:115-177 | Create changes only the project, relationship and roster tables, and its success message is the created one |
| ProjectViews.CreateOfSucceeds | api/views/project.py:115-172 | a successful Create passed every guard and its state is what create_project produced for the head found by email and the club found by name |
| ProjectViews.CreateEffect | api/views/project.py:168-172 | a created project is found by its name in the first row, with the next id, the head found by email, the club found by name and the uploaded techstack |
| ProjectViews.CreateEffectRoster | api/views/project.py:168-172 | a created project's head holds exactly one relationship to it, and its roster is the submitted one with pictures attached |
| ProjectViews.CreateKeepsValid | api/views/project.py:115-177 | Create keeps the database invariant on every path |
| ProjectViews.NewestDetail | api/views/project.py:61-85 | the detail page of the newest project shows that row's fields, its head's email and its roster |
| ProjectViews.CreateThenDetail | api/views/project.py:115-177 | after a successful Create the detail page shows the submitted email, abstract, link, techstack and roster |
| ProjectViews.EditOf | api/views/project.py:189-236 | privileges other than Edit/Admin are refused with no change; an unknown name gives "Project doesn't exist" with no change; otherwise link and abstract are overwritten, techstack replaced only when uploaded, other projects untouched; a blank or unparsable field leaves the roster; success iff the field is blank or a list of dictionaries |
| ProjectViews.RosterReplaced | api/views/project.py:219-230 | after delete-then-insert the project's roster is exactly the inserted rows and every other project's roster is unchanged |
| ProjectViews.EditReplacesRoster | api/views/project.py:213-230 | a list of dictionaries becomes the whole roster in order ("[]" clears it); other rosters are unchanged |
| ProjectViews.EditKeepsPartialRoster | api/views/project.py:216-232 | a non-iterable value leaves an empty roster; a non-dictionary element leaves the rows of the entries before it, in order; each answers with its own error text; other projects' rosters are unchanged |
| ProjectViews.EditedKeepsTable | api/views/project.py:196-211 | overwriting link, abstract and techstack keeps project ids positional, names unique and foreign keys valid |
| ProjectViews.EditKeepsValid | api/views/project.py:189-236 | Edit keeps the database invariant on every path |
| ProjectViews.EditKeepsLookup | api/views/project.py:196-211 | the edited project is still found under its name, at the same row |
| ProjectViews.EditThenDetail | api/views/project.py:196-211 | after a successful Edit the detail page shows the new link and abstract, and the uploaded techstack or the old one |
| ProjectViews.EditThenDetailRoster | api/views/project.py:213-234 | after a successful Edit the detail page lists the submitted roster, or the old one when the field was blank |
| ProjectViews.ListToDict | api/views/project.py:16-41 | the append loop returns Dicts |
| ProjectViews.AllProjects | api/views/project.py:49-53 | one entry per project, in table order |
| ProjectViews.ProjectDetail | api/views/project.py:61-85 | the endpoint with its roster loop returns DetailOf |
| ProjectViews.Search | api/views/project.py:91-100 | the endpoint returns SearchOf |
| ProjectViews.AttachProfilePics | api/views/project.py:150-157 | Create's member loop returns Attached |
| ProjectViews.Create | api/views/project.py:115-177 | the endpoint method matches CreateOf |
| ProjectViews.InsertMembers | api/views/project.py:220-232 | Edit's member loop appends one row per dictionary, in order, and stops at the first element that is not a dictionary with that element's error |
| ProjectViews.Edit | api/views/project.py:189-236 | the endpoint method, with its delete and re-create loop, matches EditOf |
| UserViews.RegisterOf | api/views/user.py:65-97 | a non-webmail address is refused first; then invalid email, short password or missing name; then an existing email; success iff all pass, appending exactly one user whose admin flag is membership in the admin list; every failure changes nothing |
| UserViews.RegisterKeepsValid | api/views/user.py:88-91 | registration keeps ids positional and emails unique |
| UserViews.LoginOf | api/views/user.py:18-45 | unknown email and wrong password give their errors with sessions unchanged; success returns email and name, ends the user's other sessions and keeps every other user's; the session's `user_id` is the user unless `login()` flushes it for carrying another user's authentication id, and its authentication id is the user |
| UserViews.LogoutOf | api/views/user.py:49-61 | success iff the session has a user id, which is then removed; other sessions unchanged |
| UserViews.IsLoggedInOf | api/views/user.py:126-146 | no user id: not logged in; a stale id is popped; logged in iff the id names a user, with isAdmin = email in the admin list, and no session change |
| UserViews.RedirectOf | api/views/user.py:151-173 | "/" without a user id or with a stale one (popped); the technical council page iff the user's email is in the admin list |
| UserViews.RedirectAgreesWithStatus | api/views/user.py:151-173 | the redirect is "/" iff the logged-in check says not logged in, the council page iff it says admin, the club heads page iff a non-admin user; same session effect |
| UserViews.RegisterThenLogin | api/views/user.py:24-42 | a newly registered account logs in with its password; the session is bound to the new id unless it carries another user's authentication id |
| UserViews.LoginThenIsLoggedIn | api/views/user.py:131-139 | after a login the check reports the user as logged in, admin iff the email is in the admin list, unless `login()` flushed the session, which then is not logged in |
| UserViews.SwitchUserLosesLogin | api/views/user.py:35-56 | after one account logs in and out, another account's login on the same session answers with its profile, yet the session is not logged in |
| UserViews.LogoutThenIsLoggedIn | api/views/user.py:49-61 | after a logout the session is not logged in, and a second logout fails |
| UserViews.RegisteredAdminFlag | api/views/user.py:86-89 | without a flush, the admin flag stored at registration agrees with what the logged-in check reports after login |
| UserViews.Register | api/views/user.py:65-97 | the endpoint method matches RegisterOf |
| UserViews.Login | api/views/user.py:18-45 | the endpoint method matches LoginOf |
| UserViews.WriteLogin | api/views/user.py:37-39 | the session writes of a login: the user's sessions end, the `user_id` entry is written and then erased by a flush when the session carries another user's authentication id, and the authentication id becomes the user |
| UserViews.Logout | api/views/user.py:49-61 | the endpoint method matches LogoutOf |
| UserViews.IsLoggedIn | api/views/user.py:126-146 | the endpoint method matches IsLoggedInOf |
| UserViews.UserRedirect | api/views/user.py:151-173 | the endpoint method matches RedirectOf |

## Left out

- **File storage:** stored files, their URLs and the uploads that happen before the permission
  checks are not modelled. Images, techstack files and profile pictures are the stored names,
  passed in as strings, and a file's URL is its stored name.
- **Missing upload:** a request without the `image` (Create) or `profile_pic` (Register) upload
  raises before any check. This is not modelled.
- **Missing form fields:** a field absent from a request reads as None. Request fields are
  modelled as strings, except the members field, the registration name and techstack uploads.
  Search without a query is not modelled.
- **Decorators:** the permission decorators and the JSON response decorator are not part of this
  model. The caller's overall-admin flag and access privilege are parameters, and responses are
  `Ok`/`Err` values.
- **Lookups that return several rows:** `get` on a club name that several clubs share raises
  MultipleObjectsReturned outside any handler that catches it. The model takes the newest such
  club. Emails and project names are unique under the invariant, so their lookups are exact.
- **Postgres search operators:** `unaccent` and upper-casing are the parameter `fold`, applied to
  both sides before the substring test.
- **Email validator and admin list:** `validate_email` and the admin webmail list are parameters.
- `UserViews.LoginOf`: `authenticate` compares the submitted password with the stored one. Hashing
  and the `is_active` check are not modelled.
- `UserViews.LoginOf`: of Django's `login()`, only the authentication id and the flush are
  modelled. The session key rotation, the session auth hash and the `user_logged_in` signal are not.
- **Helpers outside the handlers:** `remove_existing_sessions` and `register_user` are not part of
  this model. Their effects are assumed: the first ends every session whose `user_id` is the user,
  the second appends one user with the given fields and the next id.
- **Members list elements:** an empty or non-string `name` or `profile_pic` is read as None. For
  `profile_pic` this gives the handlers' outcome, since no upload is found under such a key, except
  for an unhashable key (a list or a dictionary). The handlers' `in req.FILES` test then raises
  TypeError and they answer with the members error; the model attaches no picture instead.
- `ProjectUtilities.CreateProject`: the new project's id is the next free position. A failed insert still consumes a value
  of the database's id sequence, so after a fault on the project row the next project id skips
  one. This is not modelled.
- **Storage errors in Edit:** a storage error while Edit saves the project or creates member rows
  is not modelled. Only `create_project` models storage errors, through `fault`.
- **Create's last error branch:** the "Project creation failed" branch of Create is not modelled.
  `create_project` catches every exception itself, so that branch cannot be reached.
- **Stub views:** ResetPassRequest, ResetPassUpdate and Tags have no behaviour to model.
- **Routing:** the URL table belongs to Django's `re_path` matching, which is not part of this
  model.
- **Roster table schema:** the ProjectMember table is declared in a migration that is not part of
  this model. Its shape (project, name, optional picture) is taken from how the handlers use it.
- **Row order:** ordering by creation time is modelled as insertion order. Ties between equal
  timestamps are not modelled.
- **Logging and print output** are not modelled.
- `AdminViews.ClubHeadDashboard`: the caller is `request.user`, Django's authenticated user, and
  the model takes its id as a parameter. A request without an authenticated user makes the
  relationship filter raise TypeError, since no decorator guards this view. That path is not
  modelled.
