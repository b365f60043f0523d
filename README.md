# milestack in Dafny

milestack is a small project-management application. A Flask backend keeps every record in an
in-memory dictionary of lists (`backend/models.py`) and exposes JSON routes over it
(`backend/app.py`): sign-up and log-in, projects, their tasks and milestones, chat threads,
teammates, invites and an activity feed. A Next.js client talks to it through `src/lib/api.ts`
and edits local copies of those collections in React components: a kanban board with its task
dialogs, project and milestone dialogs, a chat sidebar and chat windows, the dashboard page that
loads a project, the sidebar of the application layout and the route guard.

The Dafny project models that logic and proves what it promises.

**Backend**
- `Store` models the store as a class `Db` whose one field maps each collection to its list of
  records. The generic helpers (`find`, `find_one`, `insert`, `update`, `delete`) and the domain
  helpers (activities, memberships, invites, chat threads) are methods on it.
- Each method's `ensures` gives the new table as a function of the old one. Lemmas about those
  functions state the promises: `find` keeps exactly the matches in order, `add_member` never
  duplicates a pair and never demotes a leader, `remove_member` keeps exactly the leader
  entries, and the activity feed is sorted newest first and is a permutation of the project's
  activities.
- `Http`, `AuthRoutes`, `ProjectRoutes`, `TaskRoutes` and `ChatRoutes` model each route as a
  method. A route takes the store, the request body, the authenticated user's id, the timestamp
  and the random id suffixes. It changes the store and returns a status and a JSON body.

**Client**
- A component's state becomes a class whose fields its handlers reassign.
- A remote call becomes an input outcome, `Success(value)` or `Failure`. The calls a handler
  issues are returned as a list, so "nothing is sent" can be stated.
- Callbacks into a parent the model does not show are recorded in a `delivered` or `selected`
  list.
- `Json` models JavaScript and Python values with their truthiness. `Text` holds the string
  operations the code relies on: trimming, `startsWith`, decimal rendering, upper-casing,
  `split(c)[0]` and `encodeURIComponent`.

Where the code does something other than what its comments or surrounding design suggest, the
model follows the code:
- The kanban board's "revert" after a failed drop rewrites the status it has just written.
- A task created or edited through the dialogs is sent to the server twice: once by the dialog
  and once more by the board's handler.
- The add-milestone dialog lets a failed create escape with the dialog still open.
- The sidebar's project effect returns without touching its state when there is no token.
- `is_leader` decides on the first membership entry only.

## Model

| member | source | states |
|---|---|---|
| Store.Db.constructor | backend/models.py:8-26 | The store starts with the eight collections, each empty. |
| Store.MatchesOne | backend/models.py:43-53 | A one-key query matches exactly the records holding that value under that key. |
| Store.FirstIndex | backend/models.py:56-60 | The index found is that of the first record whose key holds the value, or the length when none does. |
| Store.FirstMatch | backend/models.py:43-53 | The index found is that of the first record matching every pair of the query, or the length when none does. |
| Store.SelectMembers | backend/models.py:43-53 | `find` keeps exactly the stored records matching every queried pair: each match is kept, and nothing else appears. |
| Store.SelectAppend | backend/models.py:43-53 | `find` distributes over concatenation, so its result is in stored order. |
| Store.SelectEmptyQuery | backend/models.py:43-53 | An empty query returns the whole collection. |
| Store.SelectHead | backend/models.py:43-53 | The first record `find` returns is the first stored match. |
| Store.WhereSnoc | backend/models.py:149-158 | Filtering a list with one more record at the end adds that record exactly when it passes. |
| Store.WherePartition | backend/models.py:149-158 | Splitting a list by a test loses no record and invents none (multiset equality). |
| Store.DeleteIdPastHead | backend/models.py:76-81 | Deleting an id the first record does not carry leaves that record in front. |
| Store.IdAbsentFromSelection | backend/models.py:149-158 | An id that no record carries is not the id of any selected record. |
| Store.DeleteSelectedIds | backend/models.py:149-158 | With unique ids, deleting one by one the ids of the records passing a test removes exactly those records and keeps the rest in order. |
| Store.DeleteFound | backend/models.py:149-158 | With unique ids, deleting one by one the ids of what a query finds removes exactly the matches and keeps the others in order. |
| Store.WithMemberKeepsPairsUnique | backend/models.py:126-146 | `add_member` grows the table only when the pair had no entry, so a table without duplicate pairs stays without them. |
| Store.WithMemberRole | backend/models.py:126-146 | After `add_member` the pair has an entry whose role is the new role, unless it already was a leader's, which stays a leader's; every other entry is unchanged. |
| Store.WithMemberUserRole | backend/models.py:126-146 | When every entry of a user holds a role, `add_member` of that user with that role keeps it so. |
| Store.FirstMatchAt | backend/models.py:43-53 | The first match is at `i` exactly when `i` matches and no earlier record does. |
| Store.MembershipFound | backend/app.py:72-74 | The membership test used by the routes (`find` on the pair) is non-empty exactly when some entry links that project and user. |
| Store.WithMemberKeepsPairs | backend/models.py:126-146 | `add_member` never moves an entry to another pair, and afterwards the pair has an entry. |
| Store.RemoveMemberKeepsLeaders | backend/models.py:149-158 | With unique membership ids, `remove_member` leaves every entry of other pairs plus the pair's leader entries, in their order, and nothing else. |
| Store.InsertByTimestampPermutes | backend/models.py:118 | Inserting into the sorted feed keeps every entry and adds exactly the new one. |
| Store.ConsNewestFirst | backend/models.py:118 | An entry no older than every entry of a newest-first list can go in front of it. |
| Store.InsertByTimestampSorted | backend/models.py:118 | Inserting into a newest-first list keeps it newest first. |
| Store.SortNewestFirstCorrect | backend/models.py:112-119 | The sorted feed is newest first by timestamp and holds exactly the entries it was given. |
| Store.InsertByTimestampStable | backend/models.py:118 | Inserting into a newest-first list puts the new entry after every entry with the same timestamp. |
| Store.SortNewestFirstStable | backend/models.py:118 | The sort is stable: the entries sharing a timestamp come out in their stored order. |
| Store.MemberRowsSound | backend/models.py:161-176 | Every listed member row comes from a stored user and one of the given memberships; none is invented. |
| Store.MemberRowsComplete | backend/models.py:161-176 | Every membership whose user is stored yields its row; none is dropped. |
| Store.RemovalStep | backend/models.py:152-156 | Visiting one more entry adds its id to the deletions exactly when it is not a leader's. |
| Store.Db.Find | backend/models.py:43-53 | Returns the stored records matching every queried pair, in stored order; the store is unchanged. |
| Store.Db.FindOne | backend/models.py:56-60 | Returns the first record whose key holds the value, or None when there is none. |
| Store.Db.Insert | backend/models.py:63-65 | Appends the record at the end of its collection, leaves every other record and collection alone, and returns it. |
| Store.Db.Update | backend/models.py:68-73 | Merges the patch into the first record with the id and returns it; without such a record returns None and changes nothing. |
| Store.Db.Delete | backend/models.py:76-81 | Removes exactly the first record with the id and answers true; without one answers false and changes nothing. |
| Store.Db.LogActivity | backend/models.py:88-109 | Appends exactly one activity with the project, the user, the description and the timestamp, and returns it. |
| Store.Db.GetProjectActivities | backend/models.py:112-119 | Returns the project's activities newest first, as a permutation of that project's stored activities. |
| Store.Db.AddMember | backend/models.py:126-146 | The pair's first entry takes the new role unless it is a leader's; without an entry a new one is appended; the pair's entry is returned. |
| Store.Db.RemoveMember | backend/models.py:149-158 | Deletes the pair's non-leader entries one by one and always answers true. |
| Store.Db.GetProjectMembers | backend/models.py:161-176 | Returns one public row, with the role, per membership of the project whose user is stored. |
| Store.Db.CreateInvite | backend/models.py:183-193 | Appends one pending invite for the project and email and returns it. |
| Store.Db.GetProjectInvites | backend/models.py:196-197 | Returns every invite of the project, whatever its status. |
| Store.Db.MarkInviteAccepted | backend/models.py:200-204 | The first invite with the id gets status "accepted" and is returned; None, with no change, when there is none. |
| Store.Db.CreateChatThread | backend/models.py:211-222 | Appends a thread with no messages, the creator and both timestamps, and returns it. |
| Store.Db.GetChatThreadsByProject | backend/models.py:225-226 | Returns the project's threads in stored order. |
| Store.Db.UpdateChatThread | backend/models.py:229-230 | `update` on the chat threads. |
| Store.Db.DeleteChatThread | backend/models.py:233-234 | `delete` on the chat threads. |
| Store.Db.NormalizeDb | backend/models.py:241-245 | The four newer collections exist afterwards, and every existing list is kept. |
| Http.Objs | backend/app.py:183 | A list of records becomes a JSON array of objects of the same length and order. |
| Http.UserPublic | backend/app.py:64-70 | The public user has exactly id, name, email and status, never the password hash; status defaults to "offline". |
| Http.CopyKeysSpec | backend/app.py:246-250 | The whitelist copy takes a key from the patch exactly when it is allowed and present; every other key keeps its stored value, and no new key appears. |
| Http.ApplyAllowed | backend/app.py:246-250 | The loop over the allowed keys computes the whitelist copy. |
| Http.FirstMissing | backend/app.py:209-213 | Names the first required key the body lacks, in the listed order, or none when all are present. |
| Http.CheckRequired | backend/app.py:211-213 | The loop answers 400 "<key> is required" for the first missing key, and nothing when every key is there. |
| AuthRoutes.RewriteThree | backend/app.py:104-107 | Rewriting the three collections the invite loop touches reads back, and a second rewrite replaces the first. |
| AuthRoutes.AcceptInvitesJoins | backend/app.py:103-107 | After the invite loop the new user is a member of every invited project. |
| AuthRoutes.SignupClearsInvites | backend/app.py:103-107 | With unique invite ids, signup removes every invite for the new email, whatever its status, and keeps every other invite in order. |
| AuthRoutes.SignupJoinsInvitedProjects | backend/app.py:103-107 | Signup makes the new user a member of every project that invited the email. |
| AuthRoutes.JoinMembersRole | backend/app.py:104-105 | When every entry of the new user has role "member", joining the invited projects keeps it so. |
| AuthRoutes.SignupJoinsAsMember | backend/app.py:103-107 | A user with no prior membership ends signup a member of every inviting project, with role "member" in every entry. |
| AuthRoutes.AcceptStep | backend/app.py:104-107 | One more accepted invite extends the memberships, the invites and the activities by that invite's step. |
| AuthRoutes.AcceptOne | backend/app.py:105-107 | One turn of the loop adds the membership, deletes the invite and logs "joined the project". |
| AuthRoutes.AcceptNext | backend/app.py:104-107 | Advances the loop by one invite, keeping the loop's state equal to its specification. |
| AuthRoutes.AcceptInvites | backend/app.py:103-107 | The whole invite loop: join, delete the invite and log, per invite for the email. |
| AuthRoutes.Signup | backend/app.py:81-115 | 400 without a truthy name, email and password, or for a taken email, and the store is unchanged; otherwise the user is stored online, the invites are accepted, and the answer is 201 with the token and the public user. |
| AuthRoutes.LogLogins | backend/app.py:131-132 | Logs one "logged in" activity per membership of the user, in membership order; nothing else changes. |
| AuthRoutes.Login | backend/app.py:119-140 | 401 with no change unless the stored credentials match; otherwise the user becomes "online", one activity is logged per membership, and the answer carries the token and the public user. |
| ProjectRoutes.IsLeaderFirstEntry | backend/app.py:72-74 | `is_leader` holds exactly when the pair's first stored entry has role "leader", whatever later entries say. |
| ProjectRoutes.AddLeaderLeads | backend/app.py:166 | After `add_member` with role "leader" the user leads the project, whatever was stored before. |
| ProjectRoutes.CreateProject | backend/app.py:148-169 | 400 with no change without a truthy title; otherwise the project is stored with status "running" and the caller as its only listed member, the caller is made leader, one activity is logged, and the answer is 201. |
| ProjectRoutes.CreatedProjectLed | backend/app.py:157-166 | A created project is "running" whatever the body says, lists only its creator, and its creator leads it. |
| ProjectRoutes.VisibleProjectsExact | backend/app.py:174-183 | The projects listed are exactly those the caller has a membership in, in stored order. |
| ProjectRoutes.GetProjects | backend/app.py:174-183 | The loop over all projects with a membership lookup per project returns the visible projects. |
| ProjectRoutes.TeammateRowsSound | backend/app.py:466-478 | Every teammate row belongs to one of the memberships and to the stored user it names. |
| ProjectRoutes.TeammateRowsComplete | backend/app.py:466-478 | Every membership whose user is stored yields its teammate row; none is dropped. |
| ProjectRoutes.InsertByRoleSplit | backend/app.py:481 | Inserting into a leaders-then-others list puts a leader's row after the leaders and any other row last. |
| ProjectRoutes.SortByRoleLeadersFirst | backend/app.py:481 | The stable sort by role gives the leaders' rows in listed order, followed by every other row in listed order. |
| ProjectRoutes.SortByRoleStep | backend/app.py:481 | Sorting one more row keeps the sort equal to the partition. |
| ProjectRoutes.SortByRolePermutes | backend/app.py:481 | The sorted rows are the same rows, and no non-leader's row comes before a leader's. |
| ProjectRoutes.JoinTeammate | backend/app.py:469-478 | One step of the loop adds the row of the next membership, when its user is stored. |
| ProjectRoutes.GetTeammates | backend/app.py:461-483 | 400 without a truthy projectId; otherwise one row per membership of the project whose user is stored, leaders first, each group in membership order. |
| ProjectRoutes.ListInvites | backend/app.py:488-495 | With a truthy projectId, the project's pending invites in stored order; otherwise every stored invite. |
| ProjectRoutes.GetActivities | backend/app.py:503-515 | 400 without a truthy projectId, 403 when the caller has no membership; otherwise the project's activities newest first. |
| TaskRoutes.GetTasks | backend/app.py:191-202 | 400 without a truthy projectId, 403 when the caller has no membership; otherwise the project's tasks in stored order. |
| TaskRoutes.GetMilestones | backend/app.py:280-285 | 400 without a truthy projectId; otherwise the project's milestones, with no membership check. |
| TaskRoutes.ListingExact | backend/app.py:202 | A listing holds each of the project's records and nothing else. |
| TaskRoutes.CreateItem | backend/app.py:207-232 | 400 naming the first missing required key, with no change; otherwise the new record is appended, "created <kind>: <title>" is logged for the body's project, and the answer is 201 with the record. The same method models `create_milestone` (backend/app.py:290-316). |
| TaskRoutes.NewItemFields | backend/app.py:217-227 | A created record carries the new id, the body's title and project, and both timestamps; a milestone's progress and status default to 0 and "pending" (backend/app.py:300-310). |
| TaskRoutes.TaskCreateChecksInOrder | backend/app.py:209-213 | A task create reports title before priority before status before projectId. |
| TaskRoutes.PatchedKeepsIdentity | backend/app.py:246-252 | An update changes only whitelisted keys and `updatedAt`: id, projectId and createdAt keep their values, and `updatedAt` becomes the request's time. |
| TaskRoutes.UpdateItem | backend/app.py:237-256 | 404 with no change when no record with the id is found (an empty record counts as none); otherwise the first such record is patched in place, one activity is logged, and the patched record is answered. The same method models `update_milestone` (backend/app.py:321-339). |
| TaskRoutes.DeleteItem | backend/app.py:261-272 | 404 with no change when no record has the id; otherwise the first such record is removed, one activity is logged, and `{"ok": true}` is answered. The same method models `delete_milestone` (backend/app.py:344-355). |
| TaskRoutes.DeleteRemovesOne | backend/app.py:268 | A delete removes exactly the found record: one fewer record, every other record kept in order. |
| ChatRoutes.GetChatThreads | backend/app.py:363-368 | 400 without a truthy projectId; otherwise the project's threads. |
| ChatRoutes.CreateChatThreadRoute | backend/app.py:373-387 | 400 with no change unless both title and projectId are truthy; otherwise an empty thread is stored, one activity is logged, and the answer is 201. |
| ChatRoutes.StoredMessages | backend/app.py:416 | No messages for a missing key, a stored list as it is, a stored string as its one-character strings; an exception for null, numbers and booleans. |
| ChatRoutes.MessageText | backend/app.py:403-404 | Gives the message's text with its ends stripped, or an exception when the message is not a dictionary or its truthy text is not a string. |
| ChatRoutes.MessageTextBlank | backend/app.py:404-407 | A message is refused exactly when its text is missing, falsy or only whitespace; a posted text has no surrounding whitespace. |
| ChatRoutes.PostAppends | backend/app.py:409-422 | Posting appends exactly one message at the end; earlier messages stay in place, and only `messages` and `updatedAt` change. |
| ChatRoutes.ThreadPatchExact | backend/app.py:429-430 | The patch holds the body's title and messages when present, and nothing else. |
| ChatRoutes.ThreadPatchKeepsIdentity | backend/app.py:429-434 | A thread patch never touches the thread's id, project, creator or creation time. |
| ChatRoutes.UpdateChatThreadRoute | backend/app.py:392-437 | 404 with no change for an unknown thread. A message body either fails (500 or 400, no change) or appends one message and logs it. Otherwise a non-empty patch is applied with a new `updatedAt`, and an empty patch changes nothing. |
| ChatRoutes.DeleteChatThreadRoute | backend/app.py:442-453 | 404 with no change for an unknown thread; otherwise the thread is removed, one activity is logged, and `{"ok": true}` is answered. |
| Api.MergeHeaders | frontend/src/lib/api.ts:18-34 | The loop over the parts computes the merged record. |
| Api.SetPairsSpec | frontend/src/lib/api.ts:26-28 | Setting pairs adds exactly their keys, and each key ends with the value of its last pair. |
| Api.MergePartKeeps | frontend/src/lib/api.ts:22-31 | A part that does not set a key leaves that key as it was. |
| Api.MergePartSets | frontend/src/lib/api.ts:22-31 | A part that sets a key decides its value. |
| Api.LaterPartWins | frontend/src/lib/api.ts:18-34 | The merged value of a key is the one given by the last part that sets it. |
| Api.MergedKeys | frontend/src/lib/api.ts:18-34 | The merged record has exactly the keys that some part sets. |
| Api.AbsentPartsSkipped | frontend/src/lib/api.ts:23 | Dropping the `undefined` parts changes nothing. |
| Api.AuthHeaders | frontend/src/lib/api.ts:9-16 | No header outside the browser or without a token; otherwise exactly the bearer header with the token. |
| Api.ErrorValue | frontend/src/lib/api.ts:44 | The message is `error`, else `message`, else "API error", by JavaScript truthiness. |
| Api.ApiFetch | frontend/src/lib/api.ts:39-48 | An OK status yields the body (`{}` when it did not parse); otherwise the call fails with the message chosen from the body. |
| Api.ServerErrorSurfaces | frontend/src/lib/api.ts:41-46 | A server answer `{"error": msg}` with a non-empty message fails with that message. |
| Api.HeadersCarryToken | frontend/src/lib/api.ts:105-110 | A request made with a token carries it as the bearer header, and JSON requests also name their content type. |
| Api.FetchProjects | frontend/src/lib/api.ts:53-60 | Without a token no request is made and the answer is `[]`; with one, a GET to `/api/projects` with no body whose only header is `Authorization: Bearer <token>`. |
| Api.FetchTasks | frontend/src/lib/api.ts:94-103 | Without a token no request is made and the answer is `[]`; with one, a GET to the task URL for the project id, with no body and only the bearer header. |
| Api.FetchMilestones | frontend/src/lib/api.ts:131-142 | Without a token no request is made and the answer is `[]`; with one, a GET to the milestone URL for the project id, with no body and only the bearer header. |
| Api.ListUrlQuery | frontend/src/lib/api.ts:98-100 | The query is added exactly for a truthy project id, and its percent-encoded value never adds a character that would end or split the query. |
| Api.SendChatMessage | frontend/src/lib/api.ts:212-221 | A PUT to the thread's URL whose body is exactly `{message: {text, senderId}}`. |
| Api.RenameChatThread | frontend/src/lib/api.ts:204-210 | A PUT to the thread's URL whose body is exactly `{title}`. |
| Api.ChatCallsShareUrl | frontend/src/lib/api.ts:204-221 | Both chat calls use the same URL and method, and the server tells them apart by the body alone: only a message body has "message". |
| Json.JsOr | frontend/src/components/dashboard/client-page.tsx:45 | `||` keeps a truthy left side and otherwise gives the right side. |
| Json.Prop | frontend/src/components/layout/sidebar.tsx:126 | A property read gives the object's field when it has one, and undefined otherwise. |
| Json.Nullish | frontend/src/components/projects/edit-project-dialog.tsx:69 | `??` gives way only for null and undefined. |
| Json.OrVersusNullish | frontend/src/components/milestones/edit-milestone-dialog.tsx:65 | `||` and `??` differ exactly on the falsy values that are not null or undefined. |
| Text.TrimIsCore | backend/app.py:404 | The trimmed string is the slice between a run of leading and a run of trailing whitespace, and neither of its ends is whitespace. |
| Text.TrimIdempotent | frontend/src/components/chat/chat-window.tsx:66-70 | Trimming a trimmed string changes nothing. |
| Text.TrimEmptyIffBlank | frontend/src/components/chat/chat-window.tsx:66 | A string trims to nothing exactly when every character is whitespace. |
| Text.NatToStringRoundTrip | frontend/src/components/chat/threads-sidebar.tsx:58-59 | Reading back the decimal rendering of a number gives the number, so distinct numbers render differently. |
| Text.BeforeFirstOfJoin | frontend/src/components/layout/sidebar.tsx:207 | Splitting `p + c + rest` at `c` gives back `p` when `p` has no `c`. |
| Text.EncodedIsQuerySafe | frontend/src/lib/api.ts:99 | The encoded text holds only unreserved characters and `%`, so it never adds `&`, `=`, `#`, `?`, `/` or a space to the URL. |
| Text.EncodeUnreservedIdentity | frontend/src/lib/api.ts:136 | A string made only of unreserved characters is sent unchanged. |
| Client.SetWhereOnlyMatching | frontend/src/components/kanban/kanban-board.tsx:55 | Setting one field by key changes only the matching elements, and only that field in them; order and length are kept. |
| Client.ReplaceAfterMerge | frontend/src/components/kanban/kanban-board.tsx:123-126 | Replacing after merging equals replacing, when the patch leaves the key as it was. |
| Client.HavingMembers | frontend/src/components/kanban/kanban-board.tsx:155 | A filter keeps exactly the elements that pass it. |
| Client.WithoutMembers | frontend/src/components/kanban/kanban-board.tsx:99 | Filtering out a value keeps exactly the other elements, in order. |
| Client.WithoutAbsent | frontend/src/components/chat/threads-sidebar.tsx:82 | Filtering out a value no element holds keeps the list as it is. |
| Client.FindById | frontend/src/components/layout/sidebar.tsx:119 | Gives an element with the id when there is one, and undefined when there is none. |
| Client.FindByIdOrThrow | frontend/src/components/layout/sidebar.tsx:119 | `find` throws exactly when it reaches a null or undefined element before a match; otherwise it gives what `FindById` gives. |
| Client.FindByIdFirst | frontend/src/components/dashboard/client-page.tsx:45 | The element found is the first with the id: every element before it has another id. |
| KanbanBoard.FoundStatusIs | frontend/src/components/kanban/kanban-board.tsx:64 | When every task with the id has a status, the first one found has that status too. |
| KanbanBoard.RevertIsNoOp | frontend/src/components/kanban/kanban-board.tsx:55-64 | The revert reads the status from the list the drop already patched, so the list stays as the drop left it. |
| KanbanBoard.ColumnsPartition | frontend/src/components/kanban/kanban-board.tsx:29-33 | A task appears in the column of its status and in no other. |
| KanbanBoard.ColumnsCoverAll | frontend/src/components/kanban/kanban-board.tsx:150-155 | When every status is one of the three, the columns together hold every task exactly once. |
| KanbanBoard.Board.constructor | frontend/src/components/kanban/kanban-board.tsx:35-40 | The board starts with the given tasks, both dialogs closed and no task remembered. |
| KanbanBoard.Board.HandleDrop | frontend/src/components/kanban/kanban-board.tsx:49-66 | An empty task id does nothing and sends nothing. Otherwise the matching tasks take the new status and the update is sent; a failure leaves the list as the drop left it. |
| KanbanBoard.Board.HandleAddTask | frontend/src/components/kanban/kanban-board.tsx:72-87 | Sends the task with status todo and the board's project; a created task goes first, a failure leaves the list; the add dialog closes either way. |
| KanbanBoard.Board.HandleRemoveTaskClick | frontend/src/components/kanban/kanban-board.tsx:89-91 | Remembers the task to confirm, and nothing else changes. |
| KanbanBoard.Board.ConfirmRemove | frontend/src/components/kanban/kanban-board.tsx:93-110 | Nothing without a remembered task. Otherwise the tasks with its id are removed and the delete is sent; a failure restores the snapshot, so the task is back at its index; the remembered task is cleared. |
| KanbanBoard.Board.HandleEditTaskClick | frontend/src/components/kanban/kanban-board.tsx:112-115 | Remembers the task and opens the edit dialog. |
| KanbanBoard.Board.HandleUpdateTask | frontend/src/components/kanban/kanban-board.tsx:117-136 | Nothing without a task being edited. Otherwise the fields are merged and the update sent; the server's task then replaces the matching tasks, a failure restores the snapshot, and the dialog closes either way. |
| TaskDialogs.AddPayload | frontend/src/components/kanban/add-task-dialog.tsx:75-82 | The payload has exactly the form's four fields plus status "todo" and the dialog's project, whatever the form holds. |
| TaskDialogs.EditPatch | frontend/src/components/kanban/edit-task-dialog.tsx:90-95 | The patch holds exactly title, description, priority and assigneeId; never the status, the project or the id. |
| TaskDialogs.FormFromTask | frontend/src/components/kanban/edit-task-dialog.tsx:75-84 | The form takes the task's title and priority; a falsy description becomes `""` and a falsy assignee `undefined`. |
| TaskDialogs.DefaultFormRejected | frontend/src/components/kanban/add-task-dialog.tsx:37-42 | An untouched form fails the schema, so submitting a fresh dialog does nothing. |
| TaskDialogs.LoadedFormValid | frontend/src/components/kanban/add-task-dialog.tsx:37-42 | A loaded task passes the schema exactly when its title is a non-empty string, its priority one of the three, and its set description and assignee are strings. |
| TaskDialogs.AddTaskDialog.constructor | frontend/src/components/kanban/add-task-dialog.tsx:62-69 | The form starts at its default values. |
| TaskDialogs.AddTaskDialog.Submit | frontend/src/components/kanban/add-task-dialog.tsx:73-102 | An invalid form sends nothing. A failed create changes nothing and leaves the dialog open. A successful create goes to the board, which creates it a second time; then the form resets and the dialog closes. |
| TaskDialogs.EditTaskDialog.constructor | frontend/src/components/kanban/edit-task-dialog.tsx:63-70 | The form starts at its default values. |
| TaskDialogs.EditTaskDialog.Load | frontend/src/components/kanban/edit-task-dialog.tsx:75-84 | When the dialog is open with a task, the form is loaded from it; otherwise it is kept. |
| TaskDialogs.EditTaskDialog.Submit | frontend/src/components/kanban/edit-task-dialog.tsx:86-114 | Nothing without a task or with an invalid form. A failure changes nothing and leaves the dialog open. A success hands the server's task to the board, which updates it a second time, and the dialog closes. |
| TaskDialogs.EditOverwritesMerge | frontend/src/components/kanban/kanban-board.tsx:123-126 | When the server answers with the task under the same id, the board's merge leaves no trace: the tasks with that id become the second answer. |
| ProjectDialogs.CreateBody | frontend/src/components/projects/add-project-dialog.tsx:51 | The body is the form's title and description plus status "running". |
| ProjectDialogs.EditBody | frontend/src/components/projects/edit-project-dialog.tsx:67-70 | The patch holds exactly title and description, and the description is `""` when the form's is null or undefined. |
| ProjectDialogs.FormFromProject | frontend/src/components/projects/edit-project-dialog.tsx:54-61 | The form takes the project's title and description. |
| ProjectDialogs.DefaultProjectFormRejected | frontend/src/components/projects/add-project-dialog.tsx:29-32 | The add dialog refuses to submit until a title is typed. |
| ProjectDialogs.ResubmitUnchanged | frontend/src/components/projects/edit-project-dialog.tsx:54-70 | A project loaded and submitted unchanged writes back its own title, and its description or `""` when that was unset. |
| ProjectDialogs.EditBodyDescriptionIsString | frontend/src/components/projects/edit-project-dialog.tsx:29-32 | A valid edit form always sends a string description. |
| ProjectDialogs.AddProjectDialog.constructor | frontend/src/components/projects/add-project-dialog.tsx:43-46 | The form starts empty. |
| ProjectDialogs.AddProjectDialog.Submit | frontend/src/components/projects/add-project-dialog.tsx:49-64 | An invalid form sends nothing. A success hands the created project to the parent, resets the form and closes; a failure changes nothing and leaves the dialog open. |
| ProjectDialogs.EditProjectDialog.constructor | frontend/src/components/projects/edit-project-dialog.tsx:50-52 | The form starts unset. |
| ProjectDialogs.EditProjectDialog.Load | frontend/src/components/projects/edit-project-dialog.tsx:54-61 | A given project is loaded into the form. |
| ProjectDialogs.EditProjectDialog.Submit | frontend/src/components/projects/edit-project-dialog.tsx:63-78 | Nothing without a project or with an invalid form. Otherwise the patch is sent, the server's project goes to the parent only on success, and the dialog closes whatever the outcome. |
| MilestoneDialogs.AddPayload | frontend/src/components/milestones/add-milestone-dialog.tsx:68-74 | The payload has title, description, the due date, the dialog's project and status "pending". |
| MilestoneDialogs.AddMilestoneDialog.constructor | frontend/src/components/milestones/add-milestone-dialog.tsx:58-65 | The form starts at its defaults, with no due date. |
| MilestoneDialogs.AddMilestoneDialog.Submit | frontend/src/components/milestones/add-milestone-dialog.tsx:67-81 | An invalid form sends nothing. A success hands the milestone to the parent, resets the form and closes; a failure escapes with nothing changed and the dialog open. |
| MilestoneDialogs.FormFromMilestone | frontend/src/components/milestones/edit-milestone-dialog.tsx:59-77 | The form takes the milestone's fields, with progress 0 when the milestone has none. |
| MilestoneDialogs.Rebuilt | frontend/src/components/milestones/edit-milestone-dialog.tsx:80-89 | The handed-on record keeps every field of the milestone, including id and projectId, and takes only title, description, due date and progress from the form. |
| MilestoneDialogs.SubmitEdit | frontend/src/components/milestones/edit-milestone-dialog.tsx:36-41 | A record is handed on exactly when the form passes the schema, and then its progress lies within 0..100. |
| MilestoneDialogs.SaveUntouched | frontend/src/components/milestones/edit-milestone-dialog.tsx:59-89 | Opening the dialog on a milestone and saving it untouched hands on the same milestone, up to the date's ISO form, when its progress is set and within bounds. |
| MilestoneDialogs.MissingProgressDefaultsToZero | frontend/src/components/milestones/edit-milestone-dialog.tsx:65 | A milestone without progress opens with progress 0. |
| MilestoneDialogs.ToggleTarget | frontend/src/components/milestones/milestone-card.tsx:86-90 | The toggle asks for 0 from exactly 100, and for 100 from anything else. |
| MilestoneDialogs.ToggleLabel | frontend/src/components/milestones/milestone-card.tsx:93-95 | The label is "Mark Incomplete" exactly at 100 and "Mark Complete" otherwise. |
| MilestoneDialogs.ToggleShown | frontend/src/components/milestones/milestone-card.tsx:84 | The toggle is offered exactly when a handler is given. |
| MilestoneDialogs.LabelMatchesTarget | frontend/src/components/milestones/milestone-card.tsx:86-95 | The label announces the target: "Complete" asks for 100, "Incomplete" for 0. |
| MilestoneDialogs.ToggleTwice | frontend/src/components/milestones/milestone-card.tsx:88 | Toggling twice returns to the start only from 100 or 0; any other progress ends at 0. |
| ThreadsSidebar.NewThread | frontend/src/components/chat/threads-sidebar.tsx:57-61 | The new thread has no messages and the title "New Thread n+1" for n existing threads. |
| ThreadsSidebar.RenameOnlyTitle | frontend/src/components/chat/threads-sidebar.tsx:106-108 | Renaming keeps every thread with another id, and changes only the title of the rest. |
| ThreadsSidebar.DeleteIdempotent | frontend/src/components/chat/threads-sidebar.tsx:82 | Deleting keeps exactly the threads with another id, and deleting again changes nothing. |
| ThreadsSidebar.Sidebar.constructor | frontend/src/components/chat/threads-sidebar.tsx:38-43 | No thread active or remembered, and both dialogs closed. |
| ThreadsSidebar.Sidebar.ThreadClick | frontend/src/components/chat/threads-sidebar.tsx:48-51 | The thread becomes active and is handed to the parent. |
| ThreadsSidebar.Sidebar.NewThreadClick | frontend/src/components/chat/threads-sidebar.tsx:56-69 | A fresh empty thread goes first, becomes active and is handed to the parent. |
| ThreadsSidebar.Sidebar.DeleteClick | frontend/src/components/chat/threads-sidebar.tsx:74-77 | Remembers the thread and opens the delete dialog. |
| ThreadsSidebar.Sidebar.ConfirmDelete | frontend/src/components/chat/threads-sidebar.tsx:79-92 | Nothing without a remembered thread. Otherwise the threads with its id are removed, the active id is cleared exactly when it was that one, the dialog closes and the thread is forgotten. |
| ThreadsSidebar.Sidebar.RenameClick | frontend/src/components/chat/threads-sidebar.tsx:97-101 | Remembers the thread, loads its title and opens the rename dialog. |
| ThreadsSidebar.Sidebar.ConfirmRename | frontend/src/components/chat/threads-sidebar.tsx:103-120 | Nothing without a remembered thread. Otherwise the threads with its id take the new title, the renamed thread goes to the parent when it is active, and the dialog, thread and title are cleared. |
| ChatClient.UserMapOf | frontend/src/components/chat/chat-client.tsx:24-28 | Every user is filed under its truthy id and its truthy email. |
| ChatClient.BuildUserMap | frontend/src/components/chat/chat-client.tsx:24-28 | The `forEach` over the users builds the map of the whole list. |
| ChatClient.UserMapKeys | frontend/src/components/chat/chat-client.tsx:26-27 | A key is in the map exactly when some user is filed under it. |
| ChatClient.LaterUserWins | frontend/src/components/chat/chat-client.tsx:25-28 | A key shared by several users maps to the last of them in the list. |
| ChatClient.View | frontend/src/components/chat/chat-client.tsx:33-60 | The placeholder exactly when no thread is open; otherwise one window per open thread, in order. |
| ChatWindow.SenderId | frontend/src/components/chat/chat-window.tsx:71 | The sender is the user's id, or the email when the id is falsy. |
| ChatWindow.NewMessage | frontend/src/components/chat/chat-window.tsx:68-73 | The message has exactly an id, the trimmed text, the sender and the timestamp. |
| ChatWindow.SenderOf | frontend/src/components/chat/chat-window.tsx:130-134 | A known sender is shown as its user; an unknown one by its id, with its first character upper-cased as initials. |
| ChatWindow.KnownSenderShown | frontend/src/components/chat/chat-window.tsx:130-134 | A sender filed under its id is shown as that user, never by the fallback. |
| ChatWindow.Window.constructor | frontend/src/components/chat/chat-window.tsx:41-43 | The window shows the thread's messages, an empty input and no user. |
| ChatWindow.Window.LoadUser | frontend/src/components/chat/chat-window.tsx:23-32 | A stored user replaces the initial null; a stored string that does not parse throws and changes nothing. |
| ChatWindow.Window.Receive | frontend/src/components/chat/chat-window.tsx:50-52 | A new thread from the parent brings its messages into the window. |
| ChatWindow.Window.SendMessage | frontend/src/components/chat/chat-window.tsx:64-82 | Blank input or no user changes nothing. Otherwise the message is appended, the thread with only its messages replaced goes to the parent, and the input is cleared. |
| ChatWindow.SentThreadOnlyMessages | frontend/src/components/chat/chat-window.tsx:75-79 | The thread sent up differs from the window's only in its messages, which are the old ones followed by the new message. |
| ChatWindow.SentTextTrimmed | frontend/src/components/chat/chat-window.tsx:66-70 | The text sent is never blank and has no surrounding whitespace. |
| Dashboard.FoundProject | frontend/src/components/dashboard/client-page.tsx:44-45 | None when the projects call fails, its answer is not an array, or `find` throws on a null or undefined element before a match; otherwise the listed project with the id, or null. |
| Dashboard.ArrayOrEmpty | frontend/src/components/dashboard/client-page.tsx:63-64 | An array is kept, and anything else becomes `[]`. |
| Dashboard.LoadCalls | frontend/src/components/dashboard/client-page.tsx:44-59 | The calls made before loading stops: the project list, then the tasks and the teammates only for a found project. |
| Dashboard.ViewOf | frontend/src/components/dashboard/client-page.tsx:80-136 | The skeleton while loading, then "no project selected", then "project not found", then the board, in that precedence. |
| Dashboard.Page.constructor | frontend/src/components/dashboard/client-page.tsx:23-26 | The page starts loading with no project, tasks or users. |
| Dashboard.Page.LoadData | frontend/src/components/dashboard/client-page.tsx:31-75 | Without a project id nothing is fetched and loading ends. Otherwise each setter runs only while mounted: the project after the first call, tasks and users (non-arrays as `[]`) only when all calls succeed, and loading ends. |
| Dashboard.NotListedNotFetched | frontend/src/components/dashboard/client-page.tsx:44-53 | A project the server does not list for the caller is never shown: the lookup gives null, or fails when the list holds a null element. Its tasks are never asked for. |
| AppLayout.Redirect | frontend/src/components/layout/app-layout.tsx:51-67 | Nothing while the user loads; a visitor on a protected path goes to `/login`; a user on a public path goes to `/projects`; `/` sends each to their start page; every other case, a user on a protected page or a visitor on an open one, stays where it is. |
| AppLayout.OpenPages | frontend/src/components/layout/app-layout.tsx:9-19 | The root and the public pages are not protected. |
| AppLayout.PrefixVersusExact | frontend/src/components/layout/app-layout.tsx:45-46 | Any path under `/projects` is protected, while a path under `/login` is not public, so a user there is not redirected. |
| LayoutSidebar.Menu | frontend/src/components/layout/sidebar.tsx:156-162 | One entry per project page, each linking to its fixed path with `?projectId=` and the project id. |
| LayoutSidebar.MenuActiveByPath | frontend/src/components/layout/sidebar.tsx:207 | An entry is active exactly on the pages under its path, whatever the project id. |
| LayoutSidebar.BaseLabel | frontend/src/components/layout/sidebar.tsx:153-154 | The project's name when there is a project id, the project exists and its name is truthy; "Projects" otherwise. |
| LayoutSidebar.LoggedOutRedirect | frontend/src/components/layout/sidebar.tsx:136-140 | Once the user has loaded, a missing user is sent to `/login`. |
| LayoutSidebar.HiddenWithoutUserRedirects | frontend/src/components/layout/sidebar.tsx:136-147 | Whenever the sidebar is hidden for want of a user, it also sends the visitor to log in. |
| LayoutSidebar.MenuOrInvalid | frontend/src/components/layout/sidebar.tsx:200-225 | The menu and the invalid-project entry never show together, and off the projects pages with a project id one of them shows. |
| LayoutSidebar.FirstChar | frontend/src/components/layout/sidebar.tsx:236 | The first character of a non-empty string name or email, or undefined. |
| LayoutSidebar.AvatarInitial | frontend/src/components/layout/sidebar.tsx:236 | One character: the upper-cased first character of the name, else of the email, else "?". |
| LayoutSidebar.Sidebar.constructor | frontend/src/components/layout/sidebar.tsx:74-101 | The project is assumed to exist, with no name and no user, while loading. |
| LayoutSidebar.Sidebar.LoadUser | frontend/src/components/layout/sidebar.tsx:74-85 | A stored user replaces null, and loading ends; a stored string that does not parse throws before either setter, so loading never ends. |
| LayoutSidebar.Sidebar.LoadProject | frontend/src/components/layout/sidebar.tsx:106-133 | Without a project id the project is marked missing. Without a token nothing is asked and nothing changes. Otherwise a listed project sets the name to its title, and a missing project, a failed call or a null element reached before the match marks it missing. |
| LayoutSidebar.Sidebar.Logout | frontend/src/components/layout/sidebar.tsx:164-168 | The token and user leave storage, every other key stays, and the target is `/login`. |

## Left out

- `jwt_required`, token creation and password hashing (`backend/auth.py`) are not part of this model. The authenticated user id is an input, and a credential check is a boolean input.
- Flask, CORS, `jsonify` and HTTP plumbing are left out. A route returns a status and a JSON value.
- `now_iso` and `gen_id` are inputs: one timestamp per request, and id suffixes from oracles. Generated ids are not assumed unique. Properties that need unique ids take that as a hypothesis.
- Request bodies in the backend are taken to be JSON objects. A truthy body that is not one (a list, string, number or `true`) makes `data.get`, `data[...]` or `patch[k]` raise, and Flask answers 500; that answer is not modelled.
- A Python `KeyError` on a missing key is read as `None` for stored records; the routes only index keys they stored.
- Python `str()` of lists and dictionaries, and JavaScript string conversion of objects, are not modelled. Neither are floating-point numbers (numbers are integers) nor `JSON.stringify` dropping `undefined` fields.
- The pages that own the milestone, project and chat-thread collections are not part of this model. Their parents' handlers appear only as recorded callback arguments.
- Routes that `api.ts` calls but `app.py` does not define are not modelled. So are the other request builders in `api.ts` and the message of an unparseable body.
- Headers are kept as given: names are not normalised to lower case as `Headers` would do.
- `toUpperCase` is modelled for ASCII letters only. Other characters are kept.
- ChatRoutes.StoredMessages: a dictionary stored under a thread's `messages` is listed by Python as its keys, the message appended and 200 answered; the model answers 500 with no change, because its objects do not keep the keys' insertion order.
- LayoutSidebar.FirstChar: strings are sequences of Unicode scalar values, while JavaScript indexes UTF-16 code units; for a name or email starting outside the Basic Multilingual Plane the model gives the whole character where `[0]` gives a lone high surrogate, which no model string can hold.
- LayoutSidebar.AvatarInitial: for the same reason, an initial from outside the Basic Multilingual Plane is the whole character, not the lone surrogate the browser shows.
- ChatWindow.SenderOf: likewise, the fallback initial of a sender id starting outside the Basic Multilingual Plane is the whole character where `charAt(0)` gives a lone surrogate.
- Dates are opaque ISO strings, and no date parsing or formatting is modelled.
- React's scheduling is not modelled: state updates apply in program order, with no batching or interleaving. Teardown of the dashboard effect is an input counting how many awaits complete while mounted.
- The chat window assumes a thread's `messages` is an array, although the thread PATCH route stores whatever value the body gives; another value there is not modelled.
- Server answers on the client are assumed to be JSON objects. A sender id that is not a string is shown with the fallback failing (`Throws`).
- Toasts, console output, the drag-and-drop event plumbing and rendering are not modelled. Router navigation appears only as a returned target.
- The AI message filter in the chat window and the smart-notification flow are not modelled; they call a language model.
