# leadcms core, modelled in Dafny

A Dafny model of the rules at the core of the leadcms lead-tracking CRM.
The system has a React front end and a Django REST back end, plus an earlier
back end that is still in the repository. The model covers:

- the Kanban board of the Leads page;
- the lead domain rules of the back end;
- the request handlers that change leads, personnel and notifications;
- the workload bookkeeping of the earlier back end;
- the small front-end helpers;
- the `update_dashboard.py` splice script.

Each `.dfy` file holds one module. They all verify together.

| file | module | models |
|---|---|---|
| basics.dfy | Basics | Option, order-preserving filters (JavaScript `filter`, Django `filter()`), the subsequence relation, tallies of keys (`GROUP BY ... COUNT`) |
| text.dfy | Text | the ASCII subset of the Python and JavaScript string methods the code uses: `strip`/`trim`, `lower`/`upper`, `split`, `find`, decimal digits, `str()` of an integer |
| client.dfy | Client | the lead record as the browser receives it; JavaScript truthiness and strict equality |
| kanban.dfy | Kanban | `frontend/src/pages/Leads.jsx`: class `Board` with the `leads` list and `activeId`; drag start and drop with optimistic update and rollback; the create, update and delete handlers; the filters and the seven status columns |
| dashboard.dfy | Dashboard | `frontend/src/pages/Dashboard.jsx`: card counts and the lists the cards and widgets open |
| lead_list.dfy | LeadList | `LeadListModal.jsx`: the search filter |
| log_modal.dfy | LogModal | `LogCommunicationModal.jsx`: the initial form and the submitted payload |
| lead_view.dfy | LeadView | `LeadView.jsx`: the progress colour and the tabs offered |
| api_client.dfy | ApiClient | `frontend/src/services/api.js`: `getCookie`, the CSRF interceptor, `getLead` |
| models.dfy | Models | `gralix_lead/gralix_lead/models.py`: roles and permissions, the accessible leads, `Lead.save`'s progress map, `soft_delete`, avatar initials, the derived workload, dates |
| scoring.dfy | Scoring | `services/scoring_service.py`: the quality score |
| store.dfy | Store | class `Crm`: the back end's tables as sequences, with the three `post_save` handlers of `signals.py` run by the methods that create rows |
| assignment.dfy | AssignmentService | `services/assignment_service.py`: `assign_lead` and the four `bulk_assign` strategies |
| serializers.dfy | Serializers | `serializers.py`: `LeadCreateSerializer.validate`, `get_workload`, the login check |
| lead_views.dfy | LeadViews | `views.py`: `bulk_status_update`, `bulk_delete`, `log_communication`, the division check of `create_lead`, `delete_personnel` |
| report_views.dfy | ReportViews | `views.py`: `export_calendar` and the count and key logic of `get_analytics` |
| notification_views.dfy | NotificationViews | `views.py`: `get_notifications`, `mark_notification_read`, `mark_all_read` |
| analytics.dfy | Analytics | `services/analytics_service.py`: the daily snapshot and its upsert by date |
| legacy_models.dfy | LegacyModels | `gralix_lead/models.py`: the earlier schema's roles and permissions, avatar, the legacy progress map, and the `workload` counter invariant |
| legacy_views.dfy | LegacyViews | `gralix_leadold/views.py`: class `LegacyDb` and the create, update, delete, log, reassign and bulk-assign views, each keeping every counter equal to its person's lead count |
| splice.dfy | DashboardSplice | `gralix_lead/update_dashboard.py`: the marker search, the unused backward scan, the splice, and its idempotence |

Some code changes state in place: the Kanban page's React state, the ORM
tables and the legacy counters. Those parts are classes, with `modifies`
clauses on their methods. Their methods are proved against specification
functions, and lemmas state what the source promises about those functions.
The rest is functions and lemmas. Requests arrive as decoded values:
`Option` for an absent field, and small datatypes for inputs that parse or
fail. Responses are reduced to their kind.

The table below has a row for each function, method and lemma whose
`ensures` states something about the source. Two kinds of member have no
row. The first is the specification functions and predicates without an
`ensures` that the rows' contracts are written in, such as
`LegacyViews.Placed`, `LegacyViews.RecordsWritten` or
`Analytics.SnapshotOf`; what they mean is what the lemmas and methods in
the table state about them. The second is generic helpers: every member
of Basics and Text (sequence filters, tallies, text and digits), and four
helpers of Serializers, `JoinAt`, `EmailOfNested`, `LastIn` and `SplitOf`.

## Model

| member | source | states |
|---|---|---|
| Client.Key | frontend/src/pages/Leads.jsx:95-109 | a card id (`id.toString()`) is a non-empty decimal text |
| Client.KeyNamesId | frontend/src/pages/Leads.jsx:103-109 | two cards with the same id text are the same lead id, so matching by text matches by id |
| Kanban.StatusesDistinct | frontend/src/pages/Leads.jsx:20-28 | the seven column keys are pairwise distinct |
| Kanban.FilterAllShowsEverything | frontend/src/pages/Leads.jsx:124-128 | with both filters at 'all' the filtered list is the loaded list |
| Kanban.FilteredLeadsSpec | frontend/src/pages/Leads.jsx:124-128 | the filtered list is an order-preserving subsequence holding exactly the loaded leads that match the status and the lower-cased, truthy division |
| Kanban.GroupedLeadsSpec | frontend/src/pages/Leads.jsx:130 | a column is the order-preserving subsequence of the filtered leads with exactly that status |
| Kanban.UnlistedStatusOnNoColumn | frontend/src/pages/Leads.jsx:224-233 | a lead whose status is not one of the seven keys (e.g. 'hot') is on no column |
| Kanban.ColumnTotalIsListed | frontend/src/pages/Leads.jsx:224-233 | for distinct keys, the column sizes add up to the number of filtered leads whose status is among the keys |
| Kanban.BoardShowsListedLeadsOnce | frontend/src/pages/Leads.jsx:224-233 | the board shows every filtered lead with a listed status exactly once |
| Kanban.FindByKey | frontend/src/pages/Leads.jsx:95 | `find` by id text: a found lead is in the list with that id text; nothing found iff no lead has it |
| Kanban.SetStatus | frontend/src/pages/Leads.jsx:108-112 | the optimistic map keeps the list length |
| Kanban.NoTargetNoRequest | frontend/src/pages/Leads.jsx:89-101 | a drop with no target, or onto neither a column key nor a card id, sends no update |
| Kanban.CardTargetResolves | frontend/src/pages/Leads.jsx:94-98 | a drop onto a card resolves to that card's current status, even one with no column |
| Kanban.SameStatusNoRequest | frontend/src/pages/Leads.jsx:103-104 | an unknown dragged id, or a target equal to its current status, sends no update |
| Kanban.RequestWellFormed | frontend/src/pages/Leads.jsx:103-116 | an update that is sent names the dragged card and carries exactly the resolved status, which differs from the card's current one |
| Kanban.SetStatusOnlyThatCard | frontend/src/pages/Leads.jsx:108-112 | the optimistic list changes only the dragged lead's status: length, order, the other leads and its other fields stay |
| Kanban.ReplaceById | frontend/src/pages/Leads.jsx:72 | the map keeps the list length |
| Kanban.ReplaceByIdSpec | frontend/src/pages/Leads.jsx:71-74 | each entry with the updated id is replaced and every other entry kept; the updated lead is in the list iff its id was |
| Kanban.RemoveByIdSpec | frontend/src/pages/Leads.jsx:76-79 | deleting keeps, in order, exactly the leads with another id |
| Kanban.Board.constructor | frontend/src/pages/Leads.jsx:30-61 | the page starts with the fetched leads, no card dragged and no lead open |
| Kanban.Board.DragStart | frontend/src/pages/Leads.jsx:81-83 | the dragged card becomes the active id |
| Kanban.Board.DragEnd | frontend/src/pages/Leads.jsx:85-121 | the active id is cleared on every drop; the request is the one the drop resolves to; no request leaves the list unchanged; success keeps the optimistic list; failure restores the snapshot exactly |
| Kanban.Board.LeadCreated | frontend/src/pages/Leads.jsx:63-65 | the new lead is prepended |
| Kanban.Board.LeadClicked | frontend/src/pages/Leads.jsx:67-69 | the clicked lead is opened |
| Kanban.Board.LeadUpdated | frontend/src/pages/Leads.jsx:71-74 | entries with that id are replaced and the modal shows the updated lead |
| Kanban.Board.LeadDeleted | frontend/src/pages/Leads.jsx:76-79 | entries with that id are removed and the modal closes |
| Dashboard.LoadLeads | frontend/src/pages/Dashboard.jsx:42 | an array response is kept as it is; anything else becomes the empty list |
| Dashboard.CardCountMatchesList | frontend/src/pages/Dashboard.jsx:54-152 | each of the ten cards shows exactly the length of the list its click opens |
| Dashboard.StatusCardCount | frontend/src/pages/Dashboard.jsx:88-152 | a status card counts the loaded leads with that status |
| Dashboard.CardResultsSpec | frontend/src/pages/Dashboard.jsx:54-72 | a click opens an order-preserving subsequence of the leads holding exactly those its case selects; the default case (any other type, 'new' included) opens all leads |
| Dashboard.UnassignedAndPriority | frontend/src/pages/Dashboard.jsx:64-65 | 'unassigned' selects the leads whose assignee is falsy (null or 0); 'priority' selects priority 'high' |
| Dashboard.FilterResultsSpec | frontend/src/pages/Dashboard.jsx:74-85 | a widget click opens the leads whose division, or whose assignee, is strictly equal to the value, in order; any other widget type opens nothing |
| Dashboard.DashboardPage.constructor | frontend/src/pages/Dashboard.jsx:30-33 | the page starts with no leads and the modal closed, untitled and empty |
| Dashboard.DashboardPage.Loaded | frontend/src/pages/Dashboard.jsx:35-48 | the stored leads are the array response, or none for a response that is not an array |
| Dashboard.DashboardPage.CardClick | frontend/src/pages/Dashboard.jsx:54-72 | the modal opens with the given title and the card's result list |
| Dashboard.DashboardPage.FilterClick | frontend/src/pages/Dashboard.jsx:74-85 | the modal opens with the given title and the widget's result list |
| LeadList.HeaderCount | frontend/src/components/dashboard/LeadListModal.jsx:37 | the header shows the unfiltered number of leads, never fewer than the search returns |
| LeadList.EmptyTermShowsAll | frontend/src/components/dashboard/LeadListModal.jsx:12-15 | an empty search term returns every lead in order |
| LeadList.SearchResultsSpec | frontend/src/components/dashboard/LeadListModal.jsx:12-15 | the results are an order-preserving subsequence holding exactly the leads whose company or contact name contains the term, ignoring ASCII case |
| LeadList.NullContactMatchesCompanyOnly | frontend/src/components/dashboard/LeadListModal.jsx:14 | with a null contact name a lead matches iff its company contains the term |
| LeadList.SearchIgnoresTermCase | frontend/src/components/dashboard/LeadListModal.jsx:13-14 | searching for a term and for its lower-cased form select the same leads |
| LeadList.LowerIdempotent | frontend/src/components/dashboard/LeadListModal.jsx:13-14 | lower-casing twice is lower-casing once |
| LogModal.InitialForm | frontend/src/components/leads/LogCommunicationModal.jsx:7-12 | the form starts as a call with an empty note and no follow-up, and the lead's status selected, or 'new' when there is no lead or its status is empty |
| LogModal.MakePayload | frontend/src/components/leads/LogCommunicationModal.jsx:24-30 | the body carries the lead id, forwards type and note unchanged, has `new_status` iff the chosen status differs from the lead's, and omits `next_followup` iff the field is empty |
| LogModal.UntouchedFormSubmit | frontend/src/components/leads/LogCommunicationModal.jsx:7-30 | submitting the untouched form logs a call with no follow-up and no status change, except 'new' for a lead with an empty status |
| LeadView.ProbColour | frontend/src/components/leads/LeadView.jsx:19-23 | green iff p >= 75, yellow iff 40 <= p < 75, red iff p < 40 |
| LeadView.ProbColourMonotone | frontend/src/components/leads/LeadView.jsx:19-23 | raising the value never moves the colour from green toward red |
| LeadView.ProgressBar | frontend/src/components/leads/LeadView.jsx:80-85 | the bar's colour is `getProbColor` of the lead's progress (green from 75, yellow from 40, red below) and its width is that progress |
| LeadView.BarIgnoresProbability | frontend/src/components/leads/LeadView.jsx:80-85 | the bar's colour and width do not depend on `probability_of_completion` |
| LeadView.Tabs | frontend/src/components/leads/LeadView.jsx:89-104 | Overview is always the first tab; the Resources & Planning tab is offered iff the status is 'won' |
| ApiClient.GetCookie | frontend/src/services/api.js:12-25 | the loop returns what the first matching piece of the cookie string decodes to, or null |
| ApiClient.EmptyCookiesGiveNull | frontend/src/services/api.js:13-14 | an empty cookie string gives null |
| ApiClient.FirstMatchWins | frontend/src/services/api.js:16-21 | the first trimmed piece starting with `name=` decides, whatever duplicates follow |
| ApiClient.NoMatchGivesNull | frontend/src/services/api.js:16-24 | with no matching piece the result is null |
| ApiClient.LongerNameDoesNotMatch | frontend/src/services/api.js:18 | a cookie whose name only begins with `name` (e.g. `csrftokenX`) does not match |
| ApiClient.Intercept | frontend/src/services/api.js:27-33 | a truthy token sets `X-CSRFToken` to it and leaves every other header alone; otherwise the headers are unchanged |
| ApiClient.GetLead | frontend/src/services/api.js:45-49 | the result is the first lead whose id equals the parsed id; none iff the id does not parse or no lead has it |
| Models.DayNumberLandmarks | gralix_lead/gralix_lead/services/scoring_service.py:36-37 | the day count behind `(today - last_contact).days` puts 1970-01-01 at day 0 and follows the Gregorian leap rules (2000 leap, 2100 not) |
| Models.ViewAllImpliesManage | gralix_lead/gralix_lead/models.py:97-101 | `can_view_all_leads` implies `can_manage_leads`; the roles that manage without viewing all are exactly 'manager' |
| Models.EditImpliesView | gralix_lead/gralix_lead/models.py:270-294 | `can_be_edited_by` implies `can_be_viewed_by`; they differ only for a non-manager on the lead's team |
| Models.AccessibleExcludesDeleted | gralix_lead/gralix_lead/models.py:103-108 | `get_accessible_leads` never returns a soft-deleted lead, and the view-all roles get every non-deleted lead |
| Models.AccessibleIffViewable | gralix_lead/gralix_lead/models.py:103-119 | for a non-deleted lead, membership in `get_accessible_leads(u)` coincides with `can_be_viewed_by(u)` |
| Models.ProgressFor | gralix_lead/gralix_lead/models.py:228-241 | a status is mapped iff it is one of the nine status choices, and every mapped progress lies in 0..100 |
| Models.ProgressFollowsPipeline | gralix_lead/gralix_lead/models.py:228-235 | along new, contacted, qualified, proposal, negotiation, hot, won the mapped progress never decreases |
| Models.Save | gralix_lead/gralix_lead/models.py:225-243 | saving changes at most the progress; a non-deleted lead with a mapped status takes the mapped progress; a deleted lead or an unmapped status is left as it is |
| Models.SaveIdempotent | gralix_lead/gralix_lead/models.py:225-243 | saving twice is saving once, and a saved non-deleted lead with a known status has progress in 0..100 |
| Models.SaveIgnoresQualityScore | gralix_lead/gralix_lead/models.py:245-256 | writing the quality score and then saving equals saving and then writing the score, so the score save changes nothing else on a saved lead |
| Models.SoftDelete | gralix_lead/gralix_lead/models.py:262-268 | the result is deleted; the first call sets status 'inactive' and progress 0 and nothing else; a deleted lead is left as it is |
| Models.SoftDeleteIdempotent | gralix_lead/gralix_lead/models.py:225-268 | deleting twice is deleting once, a later save keeps a deleted lead as it is, and the accessible query never reaches it |
| Models.AvatarFrom | gralix_lead/gralix_lead/models.py:79-84 | an explicit avatar wins; else the upper-cased first and last initials; else the first two username characters upper-cased; a derived avatar has one or two characters unless every name is empty |
| Models.Workload | gralix_lead/gralix_lead/models.py:86-95 | the workload never exceeds the number of leads |
| Models.WorkloadIsCount | gralix_lead/gralix_lead/models.py:86-95 | the workload is the number of rows assigned to the person, not deleted and with an open status |
| Models.WorkloadSnoc | gralix_lead/gralix_lead/models.py:86-95 | one more lead raises the workload by one exactly when it counts; won, lost, inactive or deleted leads never count |
| Models.WorkloadIsMatchingLeads | gralix_lead/gralix_lead/models.py:86-95 | the workload is the length of the filtered queryset and is at most the number of leads |
| Models.WorkloadUpdate | gralix_lead/gralix_lead/models.py:86-95 | rewriting one row changes the workload only by what that row contributed before and after |
| Scoring.Completeness | gralix_lead/gralix_lead/services/scoring_service.py:15-21 | 0..30 points; 30 iff email, phone, contact name and position are all non-empty; 0 iff email and phone are empty and the name-with-position pair is incomplete |
| Scoring.DealPoints | gralix_lead/gralix_lead/services/scoring_service.py:23-25 | exactly 20 points iff the deal value is positive, else 0 |
| Scoring.Engagement | gralix_lead/gralix_lead/services/scoring_service.py:27-32 | `min(10 * count, 50)`: 10 per communication up to five, 50 from five on |
| Scoring.Decay | gralix_lead/gralix_lead/services/scoring_service.py:34-39 | for elapsed days the decay is between 0 and the number of days, and 0 within the first week |
| Scoring.Clamp | gralix_lead/gralix_lead/services/scoring_service.py:42 | `max(0, min(100, x))`: in range values are kept, below 0 gives 0, above 100 gives 100 |
| Scoring.Score | gralix_lead/gralix_lead/services/scoring_service.py:5-52 | the returned score is always in 0..100 |
| Scoring.ScoreWithoutContact | gralix_lead/gralix_lead/services/scoring_service.py:13-35 | with no last contact there is no decay and the sum of the three parts (at most 100) is the score |
| Scoring.PerfectScore | gralix_lead/gralix_lead/services/scoring_service.py:13-42 | every part at its maximum and contact within the week give 100 |
| Scoring.ScoreMonotoneInCount | gralix_lead/gralix_lead/services/scoring_service.py:31-42 | more communications never lower the score |
| Scoring.DecayMonotone | gralix_lead/gralix_lead/services/scoring_service.py:37-38 | `5 * (days // 7)` is non-decreasing in days |
| Scoring.ScoreAntitoneInTime | gralix_lead/gralix_lead/services/scoring_service.py:34-42 | a later evaluation date never raises the score |
| Scoring.FutureContactAddsPoints | gralix_lead/gralix_lead/services/scoring_service.py:36-39 | a last contact in the future gives a negative decay because `//` rounds down (-1 day gives -5) |
| Store.LeadIdsUpdate | gralix_lead/gralix_lead/models.py:225-243 | rewriting a row in place under its own id keeps the table numbered |
| Store.NotificationIdsAppend | gralix_lead/gralix_lead/signals.py:19-39 | appending rows numbered after the table keeps it numbered |
| Store.PersonById | gralix_lead/gralix_lead/services/assignment_service.py:74-78 | `Personnel.objects.get(id=...)`: a found row has that id; DoesNotExist iff no row has it |
| Store.LeadIndex | gralix_lead/gralix_lead/views.py:298-299 | `Lead.objects.get(id=...)`: a found row has that id; DoesNotExist iff no row has it |
| Store.ProductById | gralix_lead/gralix_lead/serializers.py:153-161 | the product a primary-key field resolves: a found row has that id; none iff no row has it |
| Store.CommunicationCount | gralix_lead/gralix_lead/services/scoring_service.py:31 | `lead.communications.count()` is at most the number of communication rows |
| Store.CommunicationCountSnoc | gralix_lead/gralix_lead/services/scoring_service.py:31 | a new communication raises its own lead's count by one and no other lead's |
| Store.ActivityNotices | gralix_lead/gralix_lead/signals.py:16-25 | one unread 'activity' notification for the assignee, pointing at the lead and the communication, iff the lead has an assignee who is not the author; otherwise none |
| Store.ScoredSaved | gralix_lead/gralix_lead/models.py:245-256 | on a saved lead the score hook changes the quality score and nothing else |
| Store.Crm.constructor | gralix_lead/gralix_lead/models.py:1-419 | the tables start empty and consistently numbered |
| Store.Crm.SaveLead | gralix_lead/gralix_lead/signals.py:41-53 | `lead.save()` writes the remapped instance into its row and changes nothing else, because the Lead post-save hook does nothing |
| Store.Crm.InsertLead | gralix_lead/gralix_lead/models.py:225-243 | a new lead gets the next id, is saved with remapped progress and is appended |
| Store.Crm.SoftDeleteLead | gralix_lead/gralix_lead/models.py:262-268 | only that row changes, to its soft-deleted form |
| Store.Crm.CreateCommunication | gralix_lead/gralix_lead/signals.py:5-25 | exactly one communication row is appended; the hook rescored the lead counting that row, wrote only the score to the row, and added the activity notice iff the assignee is someone other than the author |
| Store.Crm.CommunicationSaved | gralix_lead/gralix_lead/signals.py:11-25 | the post-save hook of a new communication: score recomputed with the current count, only `quality_score` written, the activity notice appended |
| Store.Crm.WriteQualityScore | gralix_lead/gralix_lead/models.py:252-255 | `save(update_fields=['quality_score'])` writes that column of that row only |
| Store.Crm.InsertNotifications | gralix_lead/gralix_lead/signals.py:19-25 | the notifications are appended in order with the next ids |
| Store.Crm.CreateAssignment | gralix_lead/gralix_lead/signals.py:27-39 | one assignment row is appended and its hook adds exactly one unread 'assignment' notification to `to_personnel` |
| Store.NewCommunicationIsCounted | gralix_lead/gralix_lead/signals.py:13-14 | the hook's count includes the new communication, so the rescored lead has at least 10 engagement points |
| AssignmentService.AssignLead | gralix_lead/gralix_lead/services/assignment_service.py:7-38 | the lead is saved with the new assignee; exactly one Assignment (old to new, by the caller, with the reason) and one 'reassignment' Communication naming both sides ('Unassigned' for none) are appended, with their notifications; the row ends equal to the returned instance, whose score is the hook's score of the saved lead with the new communication counted |
| AssignmentService.RecordReassignment | gralix_lead/gralix_lead/services/assignment_service.py:18-36 | the audit rows of one reassignment are appended in order and only the score of the lead row changes, to the hook's score with the new communication counted |
| AssignmentService.ReassignmentContact | gralix_lead/gralix_lead/services/assignment_service.py:27-36 | the one reassignment communication is appended and its hook changes only the lead's score, to `Score` of the lead with that communication counted |
| AssignmentService.ReassignmentNotices | gralix_lead/gralix_lead/signals.py:16-25 | a reassignment by someone other than the new assignee also gives them an activity notice; by themselves, none |
| AssignmentService.ActivePool | gralix_lead/gralix_lead/services/assignment_service.py:54 | the pool holds exactly the active personnel, in table order |
| AssignmentService.DivisionPool | gralix_lead/gralix_lead/services/assignment_service.py:93 | the division pool holds exactly the pool members of the lead's division, in order |
| AssignmentService.Lightest | gralix_lead/gralix_lead/services/assignment_service.py:88 | `order_by('annotated_workload', 'id').first()`: a candidate no other candidate precedes by (workload, id) |
| AssignmentService.Choose | gralix_lead/gralix_lead/services/assignment_service.py:69-96 | the per-lead choice: manual gives the named row (nothing if it does not exist); round-robin gives `pool[i mod n]`; workload and division give a minimal (workload, id) candidate, from the lead's division for division, and nothing for an empty pool; an unknown strategy gives nothing; only manual may pick inactive personnel |
| AssignmentService.ChooseFollowsStrategy | gralix_lead/gralix_lead/services/assignment_service.py:69-100 | settings that always assign give a choice for every lead, settings that never assign give none, and every choice keeps the strategy's promise |
| AssignmentService.BulkAssign | gralix_lead/gralix_lead/services/assignment_service.py:40-102 | an empty set or settings that never assign return 0 and change nothing; otherwise the count is at most the number of leads, equals the number of new Assignment rows, equals all of them when the settings always assign, and each lead's assignee follows the strategy; one communication is added per assigned lead, and leads whose ids were not given are unchanged |
| AssignmentService.BulkTurn | gralix_lead/gralix_lead/services/assignment_service.py:70-100 | one turn of the loop keeps its facts for one more id: an Assignment and a communication per assigned lead, the other rows untouched, nothing written under settings that never assign, every lead assigned under settings that always do, each lead placed as the strategy says |
| AssignmentService.BulkKeptStep | gralix_lead/gralix_lead/services/assignment_service.py:70-100 | writing the row of one more id as the strategy promises, with one Assignment and one communication exactly when it assigns, extends those facts to that id |
| AssignmentService.AssignStep | gralix_lead/gralix_lead/services/assignment_service.py:70-100 | one loop turn assigns iff a choice exists, touches only that lead's row, and adds exactly one Assignment and one communication when it assigns and neither otherwise |
| AssignmentService.FollowedStep | gralix_lead/gralix_lead/services/assignment_service.py:69-100 | with distinct ids, writing one lead's row as the strategy promises extends the promise to one more lead and leaves the other leads of the set untouched |
| AssignmentService.ActiveMemberHasId | gralix_lead/gralix_lead/services/assignment_service.py:54-75 | a member of the table is the row its id names |
| Serializers.AllInAppend | gralix_lead/gralix_lead/serializers.py:175 | a character-class run over a concatenation holds iff it holds over both parts |
| Serializers.Digits | gralix_lead/gralix_lead/serializers.py:175 | `re.sub(r'\D', '', phone)` keeps only digits and never lengthens the text |
| Serializers.DigitsAppend | gralix_lead/gralix_lead/serializers.py:175 | the digits of a concatenation are the digits of each part, in order |
| Serializers.SeparatorIsFree | gralix_lead/gralix_lead/serializers.py:171-176 | inserting a space or a dash anywhere in a non-empty number does not change whether it is accepted |
| Serializers.PhoneShape | gralix_lead/gralix_lead/serializers.py:171-176 | a letter anywhere makes a number unacceptable, and every accepted number has at least seven characters |
| Serializers.NoSeparatorIn | gralix_lead/gralix_lead/serializers.py:181 | the e-mail character classes contain no `@` and no line feed, and the domain class no `.` |
| Serializers.PartsMatch | gralix_lead/gralix_lead/serializers.py:179-182 | every `local@domain.rest` built from parts in the three classes matches, and splits back into those parts |
| Serializers.MatchHasParts | gralix_lead/gralix_lead/serializers.py:179-182 | every matching string is the address of its three well-formed parts, so the matcher accepts exactly the pattern's language |
| Serializers.MatchHasNoNewline | gralix_lead/gralix_lead/serializers.py:181 | a string matching the pattern up to its end holds no line feed |
| Serializers.TrailingNewline | gralix_lead/gralix_lead/serializers.py:181 | Python's `$` lets one final line feed after a valid address through |
| Serializers.SecondNewline | gralix_lead/gralix_lead/serializers.py:181 | two final line feeds are never accepted |
| Serializers.CompanyTaken | gralix_lead/gralix_lead/serializers.py:189 | `company__iexact` exists iff some stored lead's company equals the key up to case |
| Serializers.Validate | gralix_lead/gralix_lead/serializers.py:148-194 | accepted iff no check fails, with the attributes unchanged; otherwise the reported error is the first failing check in the order product/division, probability, phone, e-mail, duplicate company |
| Serializers.ProbabilitySetOnce | gralix_lead/gralix_lead/serializers.py:163-168 | a create takes any probability, an update may resend the stored one, and an update with a different value is refused |
| Serializers.UpdateSkipsDuplicateCheck | gralix_lead/gralix_lead/serializers.py:184-192 | an update never meets the duplicate check: its verdict does not depend on the stored leads |
| Serializers.CreateRefusesDuplicate | gralix_lead/gralix_lead/serializers.py:184-192 | on create, a company equal to a stored one after stripping and up to case is refused |
| Serializers.ProductCheckNeedsBoth | gralix_lead/gralix_lead/serializers.py:153-161 | with no product or no division known the product check passes; an update sending neither is judged on the instance's own pairing |
| Serializers.AssignedLeads | gralix_lead/gralix_lead/serializers.py:21-23 | the person's `assigned_leads` are stored leads assigned to them |
| Serializers.OpenCount | gralix_lead/gralix_lead/serializers.py:21-23 | the annotation's count is at most the number of rows counted |
| Serializers.AnnotationAgrees | gralix_lead/gralix_lead/serializers.py:21-23 | `get_workload` reports the same number from the `active_workload` annotation as from the `workload` property |
| Serializers.ValidateLogin | gralix_lead/gralix_lead/serializers.py:30-47 | login succeeds iff both fields are supplied and `authenticate` returns a user who is active and active personnel, and then returns that user; a missing field gives the missing-credentials error |
| Serializers.LoginReportingOrder | gralix_lead/gralix_lead/serializers.py:30-47 | a missing field is reported whatever `authenticate` would say, and a disabled account is reported before inactive personnel |
| LeadViews.RequestedCount | gralix_lead/gralix_lead/views.py:253-262 | the count of requested, editable rows never exceeds the number of rows |
| LeadViews.RequestedCountIsFilter | gralix_lead/gralix_lead/views.py:253-262 | the count is the size of the edit-permitted part of `filter(id__in=lead_ids)` |
| LeadViews.StatusWrittenFacts | gralix_lead/gralix_lead/views.py:257-261 | a written row takes the new status and differs only in status and progress; for a live lead with a mapped status the supplied progress is overwritten by the save map, and it survives only for a deleted lead or an unmapped status |
| LeadViews.BulkStatusUpdate | gralix_lead/gralix_lead/views.py:238-264 | empty `lead_ids` or no status gives 400 and changes nothing; otherwise exactly the requested rows the caller can edit are written and counted, and every other row stays |
| LeadViews.BulkDelete | gralix_lead/gralix_lead/views.py:266-287 | empty `lead_ids` gives 400 and changes nothing; otherwise exactly the requested editable rows are soft-deleted and counted, already deleted ones included |
| LeadViews.BulkDeleteRepeat | gralix_lead/gralix_lead/views.py:266-287 | after a bulk delete no requested row is accessible to anyone, and repeating the request changes nothing yet reports the same count |
| LeadViews.LoggedRowFacts | gralix_lead/gralix_lead/views.py:313-328 | the saved lead has last contact today and the hook's score; a sent status is taken; without one a 'new' lead contacted by anything but e-mail becomes 'contacted' at 25, and otherwise keeps its status; a parsed follow-up date is stored; every other field is kept |
| LeadViews.UnmappedStatusKeepsOldProgress | gralix_lead/gralix_lead/views.py:317-330 | a sent status the save map does not know leaves the progress that the hook's save derived from the old status |
| LeadViews.LogCommunication | gralix_lead/gralix_lead/views.py:289-334 | a missing lead gives 404 and an unviewable one 403, both before any write; a request without a type or a note then fails with nothing written, since neither column takes a null; otherwise one communication (with its hook) is stored; an unparsable follow-up date then fails with only the score written, and otherwise the updated row is saved and returned |
| LeadViews.RecordContact | gralix_lead/gralix_lead/views.py:306-330 | after the checks: one communication and its notification are stored, and the lead row is written as the response says |
| LeadViews.SaveContact | gralix_lead/gralix_lead/views.py:313-330 | an unparsable follow-up raises before the save; otherwise the row becomes the updated in-memory lead |
| LeadViews.CreateLead | gralix_lead/gralix_lead/views.py:159-184 | unresolvable references and serializer errors give 400, another division for a caller outside the view-all roles gives 403, each with no write; otherwise the saved lead is appended with its creator, and an assignee gets exactly one 'Initial assignment' row and its notification |
| LeadViews.CreatedLeadIsNew | gralix_lead/gralix_lead/serializers.py:184-192 | an accepted create never repeats a stored company (stripped, case-insensitive), and a known status starts with its mapped progress |
| LeadViews.DeletePersonnel | gralix_lead/gralix_lead/views.py:758-782 | non-admins get 403, an unknown id 404, the caller's own id 400; otherwise only that account changes, with `is_active_personnel` and `is_active` both cleared and nothing deleted |
| LeadViews.DeactivatedIsOut | gralix_lead/gralix_lead/views.py:777-780 | a deactivated account is refused at login as disabled and is in no active assignment pool |
| ReportViews.CalendarLeads | gralix_lead/gralix_lead/views.py:106 | the exported leads are exactly the caller's accessible leads with a follow-up date |
| ReportViews.WriteEvent | gralix_lead/gralix_lead/views.py:115-127 | the writes for one lead are the event's lines: BEGIN, SUMMARY, DTSTART when there is a date, DESCRIPTION, END |
| ReportViews.ExportCalendar | gralix_lead/gralix_lead/views.py:103-130 | the body is the header, one event per exported lead in order, and the footer, each line ended by a line feed |
| ReportViews.EventsSnoc | gralix_lead/gralix_lead/views.py:114-127 | one more lead adds exactly its event's lines after the earlier ones |
| ReportViews.CalendarFrame | gralix_lead/gralix_lead/views.py:111-129 | the export starts with the `BEGIN:VCALENDAR` header and ends with `END:VCALENDAR` and a line feed |
| ReportViews.LineCountAppend | gralix_lead/gralix_lead/views.py:111-129 | line counts add up over concatenated writes |
| ReportViews.LineCountNone | gralix_lead/gralix_lead/views.py:111-129 | a text with no such line counts zero of it |
| ReportViews.OneBegin | gralix_lead/gralix_lead/views.py:115-127 | each event holds exactly one `BEGIN:VEVENT` line |
| ReportViews.EventsBegin | gralix_lead/gralix_lead/views.py:114-127 | the events of n leads hold exactly n `BEGIN:VEVENT` lines |
| ReportViews.CalendarEvents | gralix_lead/gralix_lead/views.py:111-129 | the export holds exactly one VEVENT per exported lead, and when no field holds a line feed the body splits back into its lines |
| ReportViews.StampRoundTrip | gralix_lead/gralix_lead/views.py:118-120 | for a four-digit year `DTSTART;VALUE=DATE:` carries eight digits that read back as YYYYMMDD of the date |
| ReportViews.AnalyticsLeads | gralix_lead/gralix_lead/views.py:408-413 | the covered leads are exactly the accessible ones, narrowed to the division unless the parameter is absent or 'all' |
| ReportViews.TallyMap | gralix_lead/gralix_lead/views.py:422-425 | the dictionary built from the grouped rows has exactly their keys with their counts |
| ReportViews.StatusCounts | gralix_lead/gralix_lead/views.py:418-428 | `status_counts` has a key for every status choice and every occurring status, each mapped to its number of leads (0 when missing) |
| ReportViews.OccurrencesAbsent | gralix_lead/gralix_lead/views.py:427-428 | a status that no lead has occurs zero times, matching the `setdefault(s, 0)` |
| ReportViews.SliceBounds | gralix_lead/gralix_lead/views.py:456-467 | per division, won leads are among the active ones, active plus lost leads are at most all, and `total_count` is the division's number of leads |
| ReportViews.EmptyDivision | gralix_lead/gralix_lead/views.py:481-486 | a division with no lead has the all-zero entry `setdefault` puts in |
| ReportViews.DivisionRows | gralix_lead/gralix_lead/views.py:468-480 | each grouped division row gets its division's counts: active, total, won and lost |
| ReportViews.DivisionPerformance | gralix_lead/gralix_lead/views.py:454-486 | `division_performance` has an entry for every division choice and every occurring division, each holding that division's counts |
| ReportViews.ConversionBounds | gralix_lead/gralix_lead/views.py:449-450 | the conversion rate is 0 with no leads, lies in 0..100, and is 100 exactly when every lead is won |
| ReportViews.GetAnalytics | gralix_lead/gralix_lead/views.py:404-531 | the total is the number of covered leads; every status and division choice has a key; each count is that of the covered leads; the conversion rate is computed from the won count and the total; the user's assigned and created counts are those of the covered leads and at most the total |
| ReportViews.UserCount | gralix_lead/gralix_lead/views.py:529-530 | a user's count never exceeds the number of covered leads |
| ReportViews.UserCountUpTo | gralix_lead/gralix_lead/views.py:529-530 | over the first n covered leads, the count is the number of those rows linked to the user |
| ReportViews.UserCountIsRows | gralix_lead/gralix_lead/views.py:529-530 | `filter(assigned_to=user).count()` and `filter(created_by=user).count()` are the numbers of covered rows assigned to or created by the user |
| ReportViews.WonWithinTotal | gralix_lead/gralix_lead/views.py:446-450 | the won count never exceeds the number of covered leads, so the rate is a percentage |
| ReportViews.LookupAtMostTotal | gralix_lead/gralix_lead/views.py:418-428 | a single grouped count is at most the sum of the counts |
| NotificationViews.Unread | gralix_lead/gralix_lead/views.py:661 | the stored part holds exactly the user's unread notifications |
| NotificationViews.UnreadNewestFirst | gralix_lead/gralix_lead/views.py:661 | when rows are numbered in creation order, the unread list is in strictly descending id order, newest first |
| NotificationViews.DueLeads | gralix_lead/gralix_lead/views.py:670-674 | the due leads are exactly those assigned to the user, with a follow-up on or before today, in an active workload status |
| NotificationViews.StoredEntries | gralix_lead/gralix_lead/views.py:677 | one serialized entry per stored notification, in order |
| NotificationViews.FollowUpEntries | gralix_lead/gralix_lead/views.py:680-692 | one transient entry per due lead, in order, with the `dynamic_followup_` id, the message, the type `followup` and `is_read` false |
| NotificationViews.GetNotifications | gralix_lead/gralix_lead/views.py:655-695 | the response is the serialized unread notifications followed by a transient entry for each due lead |
| NotificationViews.FollowUpSnoc | gralix_lead/gralix_lead/views.py:680-692 | each pass of the loop appends exactly one entry |
| NotificationViews.StoredEntriesMembers | gralix_lead/gralix_lead/views.py:677 | every stored notification appears in the serialized list, and every serialized entry comes from one |
| NotificationViews.FollowUpEntriesMembers | gralix_lead/gralix_lead/views.py:680-692 | every due lead has an entry, and every transient entry comes from a due lead |
| NotificationViews.InboxContents | gralix_lead/gralix_lead/views.py:655-695 | every inbox entry is unread and addressed to the user; the stored entries are exactly the user's unread notifications and the transient ones exactly the due leads |
| NotificationViews.ParseIdText | gralix_lead/gralix_lead/views.py:684-707 | every id the inbox hands out reads back in `mark_notification_read`: a transient id as `dynamic`, a stored id as its number |
| NotificationViews.OwnedIndex | gralix_lead/gralix_lead/views.py:707 | the lookup finds the row with that id exactly when it belongs to the user |
| NotificationViews.MarkNotificationRead | gralix_lead/gralix_lead/views.py:699-712 | a dynamic id is acknowledged with no change; a non-numeric id is a server error; an id not owned by the user is a 404; otherwise only that row becomes read |
| NotificationViews.MarkReadUnread | gralix_lead/gralix_lead/views.py:707-709 | marking one row read takes exactly that row out of every unread list |
| NotificationViews.MarkInboxEntry | gralix_lead/gralix_lead/views.py:655-712 | marking any inbox entry read succeeds: a transient one is acknowledged, and a stored one leaves the user's unread list without it and otherwise unchanged |
| NotificationViews.AllRead | gralix_lead/gralix_lead/views.py:717 | every unread notification of the user becomes read, and every other row is unchanged |
| NotificationViews.MarkAllRead | gralix_lead/gralix_lead/views.py:716-718 | the notifications become those with every unread one of the user marked read |
| NotificationViews.AllReadUnread | gralix_lead/gralix_lead/views.py:717 | afterwards the user has no unread notification, other users' unread lists are unchanged, and doing it again changes nothing |
| Analytics.LiveLeads | gralix_lead/gralix_lead/services/analytics_service.py:15 | `filter(is_deleted=False)` keeps exactly the non-deleted leads and never more rows than the table |
| Analytics.Statuses | gralix_lead/gralix_lead/services/analytics_service.py:29 | `values('status')` lists each lead's status in order |
| Analytics.Divisions | gralix_lead/gralix_lead/services/analytics_service.py:33 | `values('division')` lists each lead's division in order |
| Analytics.SnapshotCounts | gralix_lead/gralix_lead/services/analytics_service.py:12-34 | the snapshot is dated today and counts only non-deleted leads; both distributions have distinct keys, sum to the total and record every occurring status (division) with its count and no other key; with no live lead the pipeline value and average are 0 and the distributions empty |
| Analytics.QualitySumBounds | gralix_lead/gralix_lead/services/analytics_service.py:25 | the sum of scores in 0..100 lies between 0 and 100 per lead |
| Analytics.AverageBounds | gralix_lead/gralix_lead/services/analytics_service.py:25-43 | `int(Avg('quality_score') or 0)` of scores in 0..100 lies in 0..100 |
| Analytics.LiveCountUpdate | gralix_lead/gralix_lead/services/analytics_service.py:15-18 | rewriting one row changes the live count only by that row's deleted flag before and after |
| Analytics.SoftDeleteLeavesSnapshot | gralix_lead/gralix_lead/services/analytics_service.py:15-18 | soft-deleting a live lead lowers the snapshot total by exactly one |
| Analytics.DateIndex | gralix_lead/gralix_lead/services/analytics_service.py:38-39 | the row found has that date; none iff no row has it |
| Analytics.UpsertFacts | gralix_lead/gralix_lead/services/analytics_service.py:38-47 | `update_or_create(date=today)` keeps one row per date, leaves the written row the only one of its date, keeps the rows of other dates, and grows the table exactly when the date is new |
| Analytics.UpsertAgain | gralix_lead/gralix_lead/services/analytics_service.py:36-47 | re-running on the same date replaces that day's row: the table is as if only the second run had happened |
| Analytics.CaptureDailySnapshot | gralix_lead/gralix_lead/services/analytics_service.py:7-49 | the returned snapshot is the aggregate of the current leads, upserted by today's date |
| LegacyModels.ViewAllImpliesManage | gralix_lead/models.py:52-56 | an admin both manages and sees all leads; a manager manages without seeing all, and is the only such role |
| LegacyModels.AccessibleLeads | gralix_lead/models.py:58-64 | the accessible leads are every lead for an admin, the division's leads for a manager, and the agent's own leads otherwise |
| LegacyModels.AccessMatchesView | gralix_lead/models.py:58-125 | the accessible query lists exactly the leads the user may view, the edit right equals the view right, and an admin gets the whole table |
| LegacyModels.AllAccessible | gralix_lead/models.py:59-60 | for an admin the accessible leads are all the leads, in order |
| LegacyModels.Avatar | gralix_lead/models.py:45-50 | the stored avatar if set; otherwise the upper-cased initials of first and last name; otherwise the first two letters of the username, upper-cased |
| LegacyModels.StatusProgress | gralix_leadold/views.py:208-213 | the progress map gives 0..100: 100 exactly for `won`, 0 exactly for `lost` and `inactive`, and 10 for any status outside the choices |
| LegacyModels.ProgressAlongPipeline | gralix_leadold/views.py:208-213 | the progress rises strictly along new, contacted, qualified, proposal, negotiation, hot, won |
| LegacyModels.AssignedUpdate | gralix_lead/models.py:24 | rewriting one lead changes a person's lead count by what the old and new assignee contribute |
| LegacyModels.AssignedAppend | gralix_lead/models.py:24 | appending a lead adds one to its assignee's lead count only |
| LegacyModels.AssignedRemove | gralix_lead/models.py:24 | removing a lead subtracts one from its assignee's lead count only |
| LegacyModels.TransferKeepsCounters | gralix_leadold/views.py:253-258 | moving the counters along with a lead keeps every counter equal to its person's lead count, also when the lead stays with the same person |
| LegacyModels.TransferKeepsNonNegative | gralix_leadold/views.py:254-256 | the `max(0, workload - 1)` floor keeps counters non-negative, and only counters change |
| LegacyModels.StaleTransferDrift | gralix_leadold/views.py:247-258 | with the two objects loaded before saving, a different new holder gives the correct counters, while the same holder ends one above their lead count |
| LegacyModels.StaleTransferExample | gralix_leadold/views.py:247-258 | one lead held by person 1 and reassigned to person 1 leaves that counter at 2 when it should stay at 1 |
| LegacyModels.InsertKeepsCounters | gralix_leadold/views.py:103-106 | a new lead with an assignee adds one to that person's counter, which keeps all counters right |
| LegacyModels.RemoveKeepsCounters | gralix_leadold/views.py:166-171 | deleting a lead and taking one off its holder's counter keeps all counters right |
| LegacyViews.LeadIndex | gralix_leadold/views.py:115 | `Lead.objects.get` finds the row with that id, or reports that none exists |
| LegacyViews.PersonById | gralix_leadold/views.py:238 | `Personnel.objects.get` finds the person with that id, or reports that none exists |
| LegacyViews.AssignmentsWithout | gralix_lead/models.py:151 | the cascade keeps exactly the assignment records of other leads |
| LegacyViews.CommunicationsWithout | gralix_lead/models.py:138 | the cascade keeps exactly the communications of other leads |
| LegacyViews.LegacyDb.constructor | gralix_lead/models.py:6-162 | the store starts with the given staff and no leads, assignments or communications |
| LegacyViews.LegacyDb.InsertLead | gralix_leadold/views.py:92 | the new lead is appended under the next id |
| LegacyViews.LegacyDb.SaveLead | gralix_leadold/views.py:223 | saving a lead with an unchanged assignee replaces only that row and keeps the counters right |
| LegacyViews.LegacyDb.MoveLead | gralix_leadold/views.py:250-258 | saving a lead with a new assignee moves the counters from the old holder to the new one, and keeps them right |
| LegacyViews.LegacyDb.Increment | gralix_leadold/views.py:105-106 | the assignee's counter goes up by one |
| LegacyViews.LegacyDb.Decrement | gralix_leadold/views.py:168-169 | the holder's counter goes down by one, not below 0 |
| LegacyViews.LegacyDb.RemoveLead | gralix_leadold/views.py:171 | the row is removed together with its lead's assignments and communications |
| LegacyViews.LegacyDb.AddAssignment | gralix_leadold/views.py:261-267 | one assignment record is appended |
| LegacyViews.LegacyDb.AddCommunication | gralix_leadold/views.py:271-276 | one communication is appended |
| LegacyViews.CreateLead | gralix_leadold/views.py:79-109 | 400 for an invalid payload, 403 for another division unless the user sees all; otherwise the lead is stored and, when it has an assignee, an initial assignment is recorded and that counter rises |
| LegacyViews.UpdateLead | gralix_leadold/views.py:111-151 | 404, 403 and 400 in that order; otherwise the lead is saved, and a change to a new assignee records "Lead edited" and moves the counters, which stay equal to the lead counts; removing the assignee is modelled as intended, with the old holder's counter lowered and no record (as written: `LegacyViews.UnassignAsWritten`) |
| LegacyViews.UnassignAsWritten | gralix_leadold/views.py:128-138 | an edit that removes the assignee saves the lead, then the request fails before either counter is touched |
| LegacyViews.UnassignDrift | gralix_leadold/views.py:128-146 | after such an edit the old holder's counter is one above the number of leads they still hold |
| LegacyViews.DeleteLead | gralix_leadold/views.py:153-174 | 404 or 403; otherwise the holder's counter drops and the lead is deleted with its records, so exactly the leads with other ids remain |
| LegacyViews.RemovedMembers | gralix_leadold/views.py:171 | since ids are unique, removing the row removes exactly the lead with that id |
| LegacyViews.LoggedLeadFacts | gralix_leadold/views.py:203-223 | logging sets the last contact to today; a sent status brings its mapped progress; with no status a new lead moves to contacted at 25 unless the contact was an e-mail; a sent follow-up date is stored; nothing else changes |
| LegacyViews.LogCommunication | gralix_leadold/views.py:176-227 | 404 or 403; then a request without a type or a note fails with nothing written, since neither column takes a null; otherwise the communication is stored, and either the follow-up date does not parse (a server error, the lead unchanged) or the logged lead is saved; counters and assignments never change |
| LegacyViews.ReassignLead | gralix_leadold/views.py:229-280 | 404 when the lead or the assignee is missing, 403 without the edit right; otherwise the lead gets the new assignee, counters move on the current rows, and an assignment record and a reassignment note are written |
| LegacyViews.PoolUpTo | gralix_leadold/views.py:308-314 | the first n personnel rows in the pool: active, and in the user's division unless the user sees all |
| LegacyViews.Pool | gralix_leadold/views.py:308-314 | the pool holds exactly the active personnel of the user's scope |
| LegacyViews.PoolIgnoresWorkloads | gralix_leadold/views.py:308-314 | changing only counters leaves the pool as it was |
| LegacyViews.DivisionPool | gralix_leadold/views.py:329 | the pool members in the lead's division, kept in pool order |
| LegacyViews.DivisionPoolIgnoresWorkloads | gralix_leadold/views.py:329 | changing only counters leaves each division's pool as it was |
| LegacyViews.LeastUpTo | gralix_leadold/views.py:326 | among the first n pool members, a position whose workload is least |
| LegacyViews.LeastLoaded | gralix_leadold/views.py:326-331 | `order_by('workload').first()` is a pool member with the least workload, and none exactly when the pool is empty |
| LegacyViews.SelectionUpTo | gralix_leadold/views.py:297-302 | among the first n rows, exactly those accessible to the user and, for scope `unassigned`, without an assignee, in increasing order |
| LegacyViews.Selection | gralix_leadold/views.py:297-302 | the selected rows are exactly the accessible leads, or the unassigned ones for scope `unassigned`, in table order |
| LegacyViews.AssignOne | gralix_leadold/views.py:336-353 | the lead moves to the assignee, one record is written, and the counters stay right |
| LegacyViews.Target | gralix_leadold/views.py:319-334 | the manual row, the pool in turn, or a least-loaded member of the pool or of its members in the lead's division; nobody exactly when the division strategy finds none there; the pick places the lead as the strategy says |
| LegacyViews.RecordOf | gralix_leadold/views.py:328-353 | at most one record per lead: none for a lead the division strategy skips, otherwise one from the old to the new assignee, by the user, with the strategy's reason |
| LegacyViews.PlaceLead | gralix_leadold/views.py:316-353 | one pass of the loop fails exactly on a manual id with no row or an empty pool under round robin or the workload strategy, writing nothing but, under the workload strategy, the lead saved unassigned and its old holder's counter dropped; otherwise it places the lead as the strategy says and appends that lead's record; only that lead's assignee and the counters change |
| LegacyViews.RecordsStep | gralix_leadold/views.py:316-353 | a placed lead with its record extends the records of the selection by one lead, in selection order |
| LegacyViews.PlacedStep | gralix_leadold/views.py:316-353 | placing one more selected lead extends the placed prefix of the selection |
| LegacyViews.OnlyAssigneesStep | gralix_leadold/views.py:336-337 | placing one more lead changes only that selected lead's assignee |
| LegacyViews.PlaceNext | gralix_leadold/views.py:316-353 | one turn of the loop keeps its progress: counters that matched still match, only counters and the placed leads' assignees changed, each placed lead follows the strategy, and the records follow the old ones in order |
| LegacyViews.PlaceAll | gralix_leadold/views.py:316-353 | when no lead can fail, every selected lead is placed, the old records are kept and, except under the division strategy, one record per lead follows them in selection order |
| LegacyViews.AssignSelected | gralix_leadold/views.py:316-353 | the loop places every selected lead in order and writes their records, or fails on the first lead, with the exact state that failure leaves; only assignees of selected leads and counters change, and the counters stay right |
| LegacyViews.BulkAssign | gralix_leadold/views.py:282-355 | 403 for a user who cannot manage, 400 when nothing is selected; a server error exactly for an unknown strategy, a manual id with no row or an empty pool under round robin or the workload strategy, with nothing written except the first lead saved unassigned under the workload strategy; otherwise each selected lead is placed by the strategy, the records follow the old ones in selection order, and the count reported is the number selected |
| DashboardSplice.Find | gralix_lead/update_dashboard.py:188-196 | `str.find`: the result is an occurrence at or after the start position with none before it, and none means no occurrence from there on |
| DashboardSplice.FindFirst | gralix_lead/update_dashboard.py:188-196 | an occurrence with none before it is exactly what `find` returns |
| DashboardSplice.LastContentBefore | gralix_lead/update_dashboard.py:201-203 | the backward scan stops at the start position or at the last non-blank character before the end marker, with only blanks after it |
| DashboardSplice.UpdateDashboard | gralix_lead/update_dashboard.py:184-215 | the script exits on a missing start marker, then on a missing end marker, and otherwise writes the splice of the file between the two markers |
| DashboardSplice.SplicedFacts | gralix_lead/update_dashboard.py:188-215 | the start error occurs exactly when the start marker is absent, the end error exactly when no end marker follows it; otherwise the text before the start marker and from the end marker on are kept, with the new function and a blank line between them |
| DashboardSplice.Layout | gralix_lead/update_dashboard.py:215 | the spliced text is the prefix, the new function, two line feeds and the suffix, character by character |
| DashboardSplice.FirstStays | gralix_lead/update_dashboard.py:188 | a rewrite that keeps the text up to the end of the first start marker keeps that first occurrence |
| DashboardSplice.FirstAfterBlankLine | gralix_lead/update_dashboard.py:193 | after the new function and its blank line, the kept end marker is the first one `find` meets |
| DashboardSplice.PrefixAgrees | gralix_lead/update_dashboard.py:212-215 | when the new function opens with the start marker, the output agrees with the input up to the end of that marker |
| DashboardSplice.SuffixOpens | gralix_lead/update_dashboard.py:213-215 | the kept suffix opens with the end marker |
| DashboardSplice.SpliceIdempotent | gralix_lead/update_dashboard.py:184-215 | splicing the output again gives the same output, when the new text starts with the start marker and holds no end marker |
| DashboardSplice.MarkerFacts | gralix_lead/update_dashboard.py:186 | the end marker is a single line |
| DashboardSplice.UpdateTwice | gralix_lead/update_dashboard.py:6-215 | running the script a second time on its own output writes the same file again |

## Left out

- AssignmentService.BulkAssign: its post-state says only that each workload-strategy assignee is an active person, and says nothing of the division strategy. The choice of the least-loaded candidate is stated for each lead by `AssignmentService.Choose` and `AssignmentService.AssignStep`. The post-state does not restate it, because the counts shift as the loop assigns.
- LegacyViews.BulkAssign: for the workload and division strategies, the placed-lead predicate states membership of the pool, not a least counter. The least-loaded choice is stated by `LegacyViews.LeastLoaded` and `LegacyViews.Target`.
- LegacyViews.BulkAssign: under the division strategy, which skips leads, the contract of the whole loop states only that the old records are kept and at most one record per lead is added. The content of each division record is stated per lead by `LegacyViews.PlaceLead` with `LegacyViews.RecordOf`.
- LegacyViews.LeastLoaded: `order_by('workload')` leaves ties to the database. The contract allows any least-loaded member, and the body takes the first in table order. The later back end orders by `(workload, id)`, which `AssignmentService.Lightest` follows exactly.
- Querysets with no `order_by` are assumed to return rows in table order, that is by id.
- Floating-point values of `get_analytics` are left out: revenue sums, average deal value, the weighted pipeline, average quality and top performers. The conversion rate is a Dafny `real`; its `round(..., 1)` is left out. The snapshot's pipeline value (in hundredths of the currency unit) and its truncated average quality are modelled exactly, as integers, by `Analytics.SnapshotOf`.
- Creation times (`created_at`) are not modelled, nor is the ordering they give notifications beyond the id order that `UnreadNewestFirst` uses.
- Django REST framework field handling is left out. Trimming of `CharField` input, type coercion and `max_length` arrive already applied in the decoded request values.
- NotificationViews.ParseId: Python's `int()` also accepts surrounding white space, a sign and underscores in the id segment. Those forms are treated as malformed here.
- Models.ValidDate: day numbers allow 1..31 in every month.
- ReportViews.StampRoundTrip: holds for years 1000 to 9999 only. `strftime('%Y')` writes a year below 1000 with fewer than four digits, so the stamp is then shorter than eight digits and does not read back.
- Team ids are plain numbers. Whether a team row exists for an id is not modelled.
- Transactions are not modelled. Requests are assumed to run without `ATOMIC_REQUESTS`, so writes made before a failure stay.
- The legacy lead serializer is a parameter: `LegacyViews.Acceptable` stands for whatever it accepts. `gralix_lead/serializers.py` is not part of this model.
- The calendar export is modelled as the text it writes, which does not conform to iCalendar. Lines end in a bare line feed rather than CRLF (section 3.1 of RFC 5545). UID and DTSTAMP are missing from each VEVENT (section 3.6.1 of RFC 5545). TEXT values are not escaped (section 3.3.11 of RFC 5545).
- Character classes are ASCII only: Python's `\d`, `\s` and `strip`, and JavaScript's `trim` and `toLowerCase`.
- `authenticate` is a parameter of the login check. `decodeURIComponent` is a parameter of `getCookie`.
- `update_dashboard.py` opens and writes a file. Here the file content is a parameter and the outcome is the new content. Its printed messages are the `Outcome` constructors.
- In the legacy `reassign_lead`, a `reason` sent as null is not modelled; it is a string.
- Left out as plumbing or presentation:
  - HTTP and the ORM: axios calls, DRF decorators, `select_related`, SQL annotation mechanics;
  - authentication and sessions;
  - overlapping drags and other concurrency, and the polling of the notification bell;
  - Calendar.jsx, whose day matching depends on time zones;
  - the seed, snooze, snapshot-capture, score-recalculation and test scripts;
  - the presentation-only components, the admin and URL configuration, and Dashboard_Enhanced.tsx.

## Findings

| source | as written | input that shows it | evidently intended | confidence | as-written member | corrected member |
|---|---|---|---|---|---|---|
| gralix_leadold/views.py:247-258 | `reassign_lead` loads the old holder (`lead.assigned_to`) and the new one (`Personnel.objects.get`) as two objects before saving either. When both are the same person, the second save writes the stale counter plus one. `bulk_assign` (lines 317-344) does the same. | a lead held by person 1, whose counter is 1, reassigned to person 1: the counter becomes 2, while the person holds one lead | the counter stays equal to the number of leads the person holds (here 1) | not executed; high | LegacyModels.StaleTransferExample | LegacyModels.TransferKeepsCounters |
| gralix_leadold/views.py:128-146 | when an edit removes the assignee, the lead is saved, then `Assignment.objects.create` gets a null `to_personnel`. That field is not nullable, so the request fails before the old holder's counter is lowered. | a lead held by person 1, whose counter is 1, edited to have no assignee: the lead is stored unassigned and the counter stays 1 | the old holder's counter drops to 0, and no assignment record without a target is written | not executed; medium (assumes no `ATOMIC_REQUESTS`) | LegacyViews.UnassignDrift | LegacyViews.UpdateLead |
