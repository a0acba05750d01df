# Post Queue, modelled in Dafny

Post Queue is a WordPress plugin. It lets editors put posts in a *queue*:
a custom `queued` status. Each queued post gets a publish date. The plugin
spreads those dates over a daily window (`startTime` to `endTime`) at
`publishTimes` posts a day. Each queued post also gets one WordPress cron
event, `publish_queued_post`, which publishes it at that date.

Editors can reorder the queue, shuffle it, or pause it. Pausing removes the
cron events. Resuming recalculates the dates and schedules the events again.

This project models the following parts of the plugin and proves what each
promises:

- **The queue manager.** It contains the publish-time calculator, queueing a
  post, recalculating and shuffling the queue, pausing and resuming, the
  status-change hook and the cron handler.
- **The REST endpoints.** They contain the parameter validators, reading and
  updating the settings, and recalculating in a requested order.
- **The admin screens.** They contain the settings with their defaults, the
  queue listing's default sort, the drag-handle column, the post-state
  labels, and the one-time recalculation after a timezone change.
- **The settings panel's data store.**

Modules, one per file:

- `Wrappers`: `Option`.
- `PhpValues`: the PHP values a request parameter can hold, `is_numeric`,
  `empty`, and string conversion.
- `PostIds`: post ids, their decimal keys, the `post-` prefix, and the
  `usort` by requested position, as written and corrected.
- `Scheduler`: the daily window and `calculate_next_publish_time`. Time is
  integer seconds and a day is 86400 seconds.
- `Settings`: the `valid_times` labels, the four settings and the stored
  options.
- `QueueState`: the site's posts, dates and cron events, as the `Site`
  class the plugin updates in place.
- `QueueManager`: the `Manager` class, and the site state each of its
  operations leads to.
- `RestApi`: the validators and the `Endpoints` class.
- `Admin`: the admin filters and the `AdminScreen` class.
- `SettingsStore`: the reducer of the settings panel.

The site state is well formed (`QueueState.WellFormed`) when all of the
following hold:

- The queue lists each queued post once, by ascending date.
- Every post with a status has a date.
- At most one cron event is pending per post.

Every operation that changes the site keeps it well formed. Each method
states the whole new state through a function of the old one.

In three places the source does something other than it evidently means:
the slot count on a slot boundary, where `usort` puts posts that a
reorder request leaves out, and the key the manager reads the paused
flag under. The section "Findings" lists each one. Each is modelled as
written, with a lemma that shows the difference. The manager's methods
run the corrected behaviour, and "Left out" names every member this
affects.

## Model

| member | source | states |
|---|---|---|
| PhpValues.DecimalIsNumeric | includes/class-wp-post-queue-rest-api.php:92-94 | a post id written in decimal is numeric and compares as that number |
| PhpValues.NoDigitNotNumeric | includes/class-wp-post-queue-rest-api.php:138-140 | a string with no digit is never numeric |
| PhpValues.StringOf | includes/class-wp-post-queue-manager.php:210-212 | `str_replace` sees a string key as itself and a non-negative integer as its decimal digits |
| PostIds.ParseDecimal | includes/class-wp-post-queue-manager.php:214-217 | the decimal key of a post id reads back as that id |
| PostIds.CanonicalIsDecimal | includes/class-wp-post-queue-manager.php:214-217 | a canonical digit string is the decimal key of its value |
| PostIds.ParseInjective | includes/class-wp-post-queue-manager.php:214-217 | two keys that name the same post are the same key |
| PostIds.StripDecimal | includes/class-wp-post-queue-manager.php:210-212 | stripping `post-` gives the bare decimal id, whether or not the key had the prefix |
| PostIds.StripWithoutP | includes/class-wp-post-queue-manager.php:210-212 | a key without the letter `p` is left as it is |
| PostIds.StripKeys | includes/class-wp-post-queue-manager.php:210-212 | stripping a list of bare or prefixed ids gives the bare decimal ids |
| PostIds.ArrangeDistinctComplete | includes/class-wp-post-queue-manager.php:214-218 | the part of the sort placed by key position repeats no post and holds every queued post whose id was sent |
| PostIds.ArrangeKeyed | includes/class-wp-post-queue-manager.php:214-218 | every post placed by key position had its id sent; the unsent posts are placed by `Usort` (as written) or `Reorder` (corrected) |
| PostIds.Unsent | includes/class-wp-post-queue-manager.php:214-218 | holds exactly the queued posts whose id was not sent, and no more posts than the queue |
| PostIds.Sent | includes/class-wp-post-queue-manager.php:214-218 | holds exactly the queued posts whose id was sent |
| PostIds.PartsInQueueOrder | includes/class-wp-post-queue-manager.php:214-218 | the unsent posts and the sent posts each keep the queue's date order: each is the queue with the other posts left out |
| PostIds.UnsentDistinct | includes/class-wp-post-queue-manager.php:214-218 | the unsent posts repeat no post |
| PostIds.UnsentCovered | includes/class-wp-post-queue-manager.php:214-218 | when every queued id is sent, no post is unsent |
| PostIds.PartsPermute | includes/class-wp-post-queue-manager.php:214-218 | the posts placed by key and the unsent posts together hold each queued post once, in either order |
| PostIds.SortsPermute | includes/class-wp-post-queue-manager.php:214-218 | the source's sort (unsent posts tied with position 0, stable) and the corrected one (sent posts rearranged among their own places) are both permutations of the queue, whatever keys are sent |
| PostIds.SortsAgreeWhenCovered | includes/class-wp-post-queue-manager.php:214-218 | when every queued id is sent, the source's sort and the corrected one agree with the sent order |
| PostIds.FirstKeyFront | includes/class-wp-post-queue-manager.php:214-218 | with every id sent, the only post ranked 0 is the one sent first, which is where the sent order puts it |
| PostIds.ReorderPlaces | includes/class-wp-post-queue-manager.php:214-218 | the corrected sort leaves every unsent post at its index, puts the sent posts in the order sent, and keeps the unsent posts those of the queue in date order |
| PostIds.FillPlaces | includes/class-wp-post-queue-manager.php:214-218 | filling the sent places with a list of sent posts keeps each unsent post at its index, and the sent places read back as that list |
| PostIds.FillElements | includes/class-wp-post-queue-manager.php:214-218 | the filled queue holds the unsent posts and the posts filled in, and nothing else |
| PostIds.FillDistinct | includes/class-wp-post-queue-manager.php:214-218 | filled with sent posts that repeat none, the queue repeats no post |
| PostIds.FillCovered | includes/class-wp-post-queue-manager.php:214-218 | when every queued id is sent, filling gives the filled-in list itself |
| PostIds.SwapOnPage | includes/class-wp-post-queue-manager.php:214-218 | dragging a post above its neighbour on a page: the corrected sort swaps the two in place; the source keeps the dragged post in place and moves the other one behind every later queued post |
| PostIds.PageTwoJumpsAhead | includes/class-wp-post-queue-manager.php:214-218 | with posts 1, 2, 3 queued and only "2", "1" sent, the source gives 2, 3, 1 and the corrected sort 2, 1, 3 |
| PostIds.LastPageAgrees | includes/class-wp-post-queue-manager.php:214-218 | with posts 1 to 4 queued and "4", "3" sent from the last page, both sorts give 1, 2, 4, 3 |
| PostIds.MiddlePageMovesToEnd | includes/class-wp-post-queue-manager.php:214-218 | with posts 1 to 6 queued and "4", "3" sent from the middle page, the source gives 1, 2, 4, 5, 6, 3 and the corrected sort 1, 2, 4, 3, 5, 6 |
| PostIds.ArrangePermutes | includes/class-wp-post-queue-manager.php:214-218 | when every queued id is sent, the sort is a permutation of the queue |
| PostIds.ArrangeDecimals | includes/class-wp-post-queue-manager.php:214-218 | sorting by a list of distinct queued ids gives exactly that list |
| PostIds.RequestedOrderKept | includes/class-wp-post-queue-manager.php:210-218 | a permutation of the queue sent as bare or `post-` ids comes back as that order, and leaves no post unsent |
| Scheduler.Window.Interval | includes/class-wp-post-queue-manager.php:72 | the interval is at least one second, and `publishTimes + 1` intervals fill the window |
| Scheduler.Clamp | includes/class-wp-post-queue-manager.php:93-103 | a time before the window end is kept; a later one moves to the first slot of a later day |
| Scheduler.NextPublishTimeAsWritten | includes/class-wp-post-queue-manager.php:68-106 | the calculator as written: at or after the anchor plus one interval, not before now, and before the window end |
| Scheduler.NextPublishTime | includes/class-wp-post-queue-manager.php:68-106 | the calculator with the slot count corrected: strictly after now, at or after the anchor plus one interval, and before the window end |
| Scheduler.ForwardStepKept | includes/class-wp-post-queue-manager.php:75-81 | a next time in the future and inside the window is the anchor plus one interval |
| Scheduler.PastSlotFitsToday | includes/class-wp-post-queue-manager.php:81-86 | when the slots left today suffice, the time is today's slot after the used ones, and lies between now and the window end |
| Scheduler.PastSlotRollsForward | includes/class-wp-post-queue-manager.php:87-90 | otherwise the time is slot `index % publishTimes + 1` of a later day, `ceil((index + 1) / publishTimes)` days ahead |
| Scheduler.PastSlotTodayWith | includes/class-wp-post-queue-manager.php:81-86 | for any free-slot count up to the source's, the today branch gives slot `used + needed` of today: not before now, after now unless it is the first post of a day's round, after now whenever the count leaves out a slot at now, and before the window end |
| Scheduler.PastSlotLaterDayWith | includes/class-wp-post-queue-manager.php:87-90 | for any free-slot count too small for the post, the time is slot `index % publishTimes + 1` of the day `ceil((index + 1) / publishTimes)` days ahead |
| Scheduler.PastSlotFitsTodayAsWritten | includes/class-wp-post-queue-manager.php:81-86 | the calculator as written, when its count leaves enough slots: today's slot after the used ones, at or after now and before the window end, and equal to now only for the first post of a day's round |
| Scheduler.PastSlotRollsForwardAsWritten | includes/class-wp-post-queue-manager.php:87-90 | the calculator as written, when its count leaves too few slots: slot `index % publishTimes + 1` of a later day, `ceil((index + 1) / publishTimes)` days ahead |
| Scheduler.FirstSlotInFuture | includes/class-wp-post-queue-manager.php:75-79 | with no anchor and today's first slot still ahead, the first post goes there |
| Scheduler.FirstSlotLaterToday | includes/class-wp-post-queue-manager.php:81-86 | with no anchor, the first slot past and a slot left today, the first post takes one of today's slots |
| Scheduler.FirstOnSlot | includes/class-wp-post-queue-manager.php:68-106 | the first time of a queue is always on one of the day's slots |
| Scheduler.StepOnSlot | includes/class-wp-post-queue-manager.php:68-106 | from a future anchor on a slot, the next time is on a slot too |
| Scheduler.StepWithinDay | includes/class-wp-post-queue-manager.php:79-103 | from a future slot that is not the day's last, the next time is the following slot |
| Scheduler.StepPastWindowEnd | includes/class-wp-post-queue-manager.php:93-103 | from the day's last slot, the next time is the first slot of a later day |
| Scheduler.Schedule | includes/class-wp-post-queue-manager.php:220-225 | the recalculation, with the corrected calculator, gives one time per queued post |
| Scheduler.ScheduleOrdered | includes/class-wp-post-queue-manager.php:220-225 | with the corrected calculator, the recalculated times strictly increase and all lie after now |
| Scheduler.ScheduleOnSlots | includes/class-wp-post-queue-manager.php:220-225 | with the corrected calculator, every recalculated time is on a slot |
| Scheduler.TwoPerDayExample | includes/class-wp-post-queue-manager.php:68-106 | two posts a day in 00:00-01:00, asked at 10:00, give 00:20 and 00:40 tomorrow, then 00:20 the day after |
| Scheduler.SlotBoundaryGivesNow | includes/class-wp-post-queue-manager.php:81-86 | as written, a request made exactly on a slot boundary can be dated `now` itself |
| Scheduler.BoundaryCounts | includes/class-wp-post-queue-manager.php:82 | on that boundary the written slot count counts the current slot as remaining |
| Scheduler.SlotBoundaryShiftsSecondPost | includes/class-wp-post-queue-manager.php:81-90 | on that boundary, with the first post at 00:00, the source gives the second post 00:40 today and the strict count 00:40 of the next day |
| Settings.TimeOfLabel | includes/class-wp-post-queue-rest-api.php:22-47 | a label reads as a whole hour of the day |
| Settings.LabelAccepted | includes/class-wp-post-queue-rest-api.php:22-47 | a label can be read exactly when it is one of the 24 valid times |
| Settings.LabelsDistinct | includes/class-wp-post-queue-rest-api.php:22-47 | the 24 valid times are distinct |
| Settings.LabelHourRoundTrip | includes/class-wp-post-queue-rest-api.php:22-47 | the label of an hour reads back as that hour |
| Settings.HourLabelRoundTrip | includes/class-wp-post-queue-rest-api.php:22-47 | a valid label is the label of the hour it reads as |
| Settings.ListedLabelIndex | includes/class-wp-post-queue-rest-api.php:22-47 | each valid time is found at its own position in the list |
| Settings.DefaultsSchedulable | includes/class-wp-post-queue-admin.php:277-290 | the default settings give the window 00:00-01:00 with two slots 20 minutes apart |
| Settings.SettingsOf | includes/class-wp-post-queue-rest-api.php:222-227 | the settings can be read back exactly when all four options are stored |
| Settings.StoredSettingsRoundTrip | includes/class-wp-post-queue-rest-api.php:210-227 | storing the four settings and reading them back gives the same settings |
| QueueState.NextScheduled | includes/class-wp-post-queue-manager.php:154 | a post has a pending time exactly when it has an event, and that event is pending |
| QueueState.Unschedule | includes/class-wp-post-queue-manager.php:299-304 | removing the event of a post that has none changes nothing |
| QueueState.ScheduleOnce | includes/class-wp-post-queue-manager.php:152-157 | scheduling keeps one event per post, leaves the post with an event, and does nothing when one is already pending |
| QueueState.Cancel | includes/class-wp-post-queue-manager.php:309-314 | cancelling keeps exactly the events of the other posts |
| QueueState.UnscheduleCancels | includes/class-wp-post-queue-manager.php:299-304 | with one event per post, removing a post's event cancels it and nothing else |
| QueueState.CancelKeepsOne | includes/class-wp-post-queue-manager.php:309-314 | cancelling keeps one event per post |
| QueueState.CancelTwice | includes/class-wp-post-queue-manager.php:309-314 | cancelling two sets one after the other is cancelling their union |
| QueueState.CancelAppend | includes/class-wp-post-queue-manager.php:309-314 | cancelling distributes over the event list |
| QueueState.RescheduleShape | includes/class-wp-post-queue-manager.php:289-292 | rescheduling leaves exactly one event for the post, at the new time, and keeps one event per post |
| QueueState.RescheduleStep | includes/class-wp-post-queue-manager.php:223-229 | one more step of the recalculation loop reschedules one more post of the block |
| QueueState.Assign | includes/class-wp-post-queue-manager.php:231-239 | writing dates keeps every other post's date and adds no post outside the list |
| QueueState.AssignValues | includes/class-wp-post-queue-manager.php:231-239 | after the writes, each listed post has its own time |
| QueueState.Without | includes/class-wp-post-queue-manager.php:117-121 | removing a post keeps the others, without repeats, and never lengthens the queue |
| QueueState.MoveToEndShape | includes/class-wp-post-queue-manager.php:116-123 | moving a queued post to the end is the queue without it plus it, a permutation |
| QueueState.WithoutSorted | includes/class-wp-post-queue-manager.php:117-121 | removing a post keeps the queue sorted by date |
| QueueState.QueueAnchor | includes/class-wp-post-queue-manager.php:126-127 | the anchor is the date of the second-to-last entry, and there is none for a queue of one |
| QueueManager.QueueTimeBounds | includes/class-wp-post-queue-manager.php:126-128 | the time `queue_post` picks with the corrected calculator is after now and after the date of the post before it |
| QueueManager.QueuedKeepsQueue | includes/class-wp-post-queue-manager.php:133-143 | dating the moved post after the others keeps the site well formed, and it gets an event unless paused |
| QueueManager.QueuePostKeepsQueue | includes/class-wp-post-queue-manager.php:113-144 | with the corrected calculator, `queue_post` moves the post to the end, dates it after now and after every other queued post, leaves statuses alone, and schedules it unless paused |
| QueueManager.AnchorIsPrevious | includes/class-wp-post-queue-manager.php:116-127 | after the move, the anchor is the date of the post just before the moved one |
| QueueManager.RecalculateKeepsQueue | includes/class-wp-post-queue-manager.php:202-253 | recalculating keeps the site well formed; unless paused, the queue takes the new order, each post gets its time and one event at it, and other posts' dates and events stay |
| QueueManager.RescheduledKeepsQueue | includes/class-wp-post-queue-manager.php:223-239 | dating and rescheduling a permutation of the queue at increasing times keeps the site well formed |
| QueueManager.RescheduledDates | includes/class-wp-post-queue-manager.php:231-239 | the date writes give each listed post its time and change no other date |
| QueueManager.RescheduledEvents | includes/class-wp-post-queue-manager.php:227-229 | the event updates leave each listed post one event at its time and keep other posts' events |
| QueueManager.PauseClearsEvents | includes/class-wp-post-queue-manager.php:309-314 | pausing leaves no queued post with an event, keeps other events, and keeps the site well formed |
| QueueManager.SettingsArray | includes/class-wp-post-queue.php:46-51 | the settings array handed to the manager has exactly the keys `publishTimes`, `startTime`, `endTime` and `postQueuePaused` (also built at includes/class-wp-post-queue-rest-api.php:223-228 and includes/class-wp-post-queue-admin.php:285-290) |
| QueueManager.PausedEntry | includes/class-wp-post-queue-manager.php:141 | `$this->settings['wpQueuePaused']` is false for every settings array; the entry under `postQueuePaused` is the paused setting |
| QueueManager.PublishIgnoresPauseAsWritten | includes/class-wp-post-queue-manager.php:165-167 | as written, the cron handler publishes a post of a paused queue; read under the key the settings carry, the post stays queued |
| QueueManager.PublishKeepsQueue | includes/class-wp-post-queue-manager.php:164-173 | unless paused, an existing post becomes published and leaves the queue; dates and events stay |
| QueueManager.StatusChangeKeepsQueue | includes/class-wp-post-queue-manager.php:40-49 | a post entering the queue ends it; a post leaving it other than by publishing loses its event; the site stays well formed |
| QueueManager.Manager.RemoveScheduledEvent | includes/class-wp-post-queue-manager.php:299-304 | removes the post's pending event, if any, and changes nothing else |
| QueueManager.Manager.ScheduleQueuedPost | includes/class-wp-post-queue-manager.php:152-157 | adds an event unless one is already pending, and changes nothing else |
| QueueManager.Manager.UpdateScheduledEvent | includes/class-wp-post-queue-manager.php:289-292 | removes the post's event, then schedules it at the new time |
| QueueManager.Manager.QueuePost | includes/class-wp-post-queue-manager.php:113-144 | the site after `queue_post`, with the corrected calculator and the paused flag the settings carry, kept well formed |
| QueueManager.Manager.Recalculate | includes/class-wp-post-queue-manager.php:202-253 | sorts the queue by the sent keys with the corrected sort (the sent posts take the places the sent posts held, in the order sent; every other post keeps its place, by `PostIds.ReorderPlaces`), a permutation of the queue whatever keys are sent; reports each post with its calculated time and leaves the site recalculated in that order |
| QueueManager.Manager.RepublishInOrder | includes/class-wp-post-queue-manager.php:220-252 | the loop gives the posts the calculated times in order, reports them, and writes dates and events unless paused |
| QueueManager.Manager.RepublishOne | includes/class-wp-post-queue-manager.php:224-239 | one loop step reschedules and re-dates one more post unless paused |
| QueueManager.Manager.ShuffleQueuedPosts | includes/class-wp-post-queue-manager.php:260-281 | recalculates in the given permutation; rescheduling again at the reported times leaves the events as the recalculation left them |
| QueueManager.Manager.PauseQueue | includes/class-wp-post-queue-manager.php:309-314 | the loop removes the events of all queued posts and nothing else |
| QueueManager.Manager.RecalculateCurrentOrder | includes/class-wp-post-queue-manager.php:319-322 | recalculating in the current order keeps the order and reports the calculated times |
| QueueManager.Manager.ResumeQueue | includes/class-wp-post-queue-manager.php:319-322 | resuming recalculates the queue in its current order |
| QueueManager.Manager.HandlePostStatusChange | includes/class-wp-post-queue-manager.php:40-49 | a post entering the queue is queued; one leaving it other than by publishing loses its event and the queue is recalculated |
| QueueManager.Manager.PublishPostNow | includes/class-wp-post-queue-manager.php:164-173 | the site after the cron handler: published unless paused |
| RestApi.OrderAccepted | includes/class-wp-post-queue-rest-api.php:134-144 | an `order` is accepted exactly when it is an array of numeric values |
| RestApi.PublishTimesRange | includes/class-wp-post-queue-rest-api.php:92-94 | an integer `publish_times` is accepted exactly when it is between 0 and 50; -1 and 51 are refused |
| RestApi.PublishTimesDecimal | includes/class-wp-post-queue-rest-api.php:92-94 | a decimal string is accepted exactly when its value is at most 50 |
| RestApi.TimeAcceptedReadable | includes/class-wp-post-queue-rest-api.php:99-108 | a time parameter is accepted exactly when it is a string the calculator can read |
| RestApi.TimeRefusals | tests/class-wp-post-queue-rest-api-test.php:80-88 | "25 am", "13 pm", "random string" and a non-string are refused; "12 am" and "1 am" are accepted |
| RestApi.PausedRefusals | includes/class-wp-post-queue-rest-api.php:110-115 | the paused flag is accepted exactly when it is `true` or `false`; the string "not_a_boolean" of tests/class-wp-post-queue-rest-api-test.php:87, the string "1" and the integer 1 are refused |
| RestApi.DecimalOrderAccepted | includes/class-wp-post-queue-rest-api.php:134-144 | an order of decimal post ids passes the validator |
| RestApi.OverlayWritesSupplied | includes/class-wp-post-queue-rest-api.php:210-221 | supplied parameters are stored and absent ones keep their options; repeating is idempotent; an empty request keeps all; a full one does not depend on what was stored |
| RestApi.UpdateKeepsQueue | includes/class-wp-post-queue-rest-api.php:202-246 | with the manager reading the flag the settings carry: after an update the site is well formed with the new options and the same queue; unless paused, the posts are re-dated and rescheduled at their recalculated times; a request that pauses leaves no queued post an event; a queue that stays paused changes only its options |
| RestApi.UpdateReadingKeepsQueue | includes/class-wp-post-queue-rest-api.php:229-243 | for whichever key the manager reads its flag under, the update keeps the queue well formed, re-dates and reschedules every post when the flag it reads is false, and clears the events when it reads a pause requested by this call |
| RestApi.PauseUndoneAsWritten | includes/class-wp-post-queue-rest-api.php:229-243 | as written, a request that pauses the queue ends with every queued post re-dated and scheduled, because the manager reads `wpQueuePaused` |
| RestApi.Endpoints.GetSettings | includes/class-wp-post-queue-rest-api.php:180-182 | answers the settings the endpoint holds |
| RestApi.Endpoints.UpdateSettings | includes/class-wp-post-queue-rest-api.php:202-246 | stores the supplied options, holds what was read back, pauses or resumes on a change of flag, then recalculates the current order and reports it |
| RestApi.ChangePause | includes/class-wp-post-queue-rest-api.php:231-238 | pauses or resumes only when the request changes the flag |
| RestApi.Endpoints.RecalculateOrder | includes/class-wp-post-queue-rest-api.php:260-267 | recalculates in the requested order with the corrected sort (the sent posts rearranged among their own places, every other post kept in place), whatever ids are sent: a permutation of the queue, reported with its times |
| RestApi.IntegerOrderKept | includes/class-wp-post-queue-rest-api.php:260-267 | an order of integer ids that permutes the queue passes the validator and is the order the queue takes, under the source's sort and the corrected one alike |
| Admin.AdminSettings | includes/class-wp-post-queue-admin.php:277-290 | each setting is its stored option, or its default when none is stored |
| Admin.FreshSiteDefaults | includes/class-wp-post-queue-admin.php:277-290 | a site with no stored option gets the defaults, which the calculator can use |
| Admin.DefaultOrderKeepsChoice | includes/class-wp-post-queue-admin.php:444-450 | a sort the request gives is kept and a missing one becomes date ascending; other variables stay; filling in twice is filling in once |
| Admin.SetDefaultQueueOrder | includes/class-wp-post-queue-admin.php:438-450 | on the queue screen's main admin query the default sort is filled in; any other query is left alone |
| Admin.DragHandleFirst | includes/class-wp-post-queue-admin.php:376-382 | on the queue screen the drag handle is the first column, put in front of columns that lack it; elsewhere the columns are unchanged |
| Admin.MergeKeepsFirst | includes/class-wp-post-queue-admin.php:379 | `array_merge` keeps the first array's first column first |
| Admin.MergeFresh | includes/class-wp-post-queue-admin.php:379 | `array_merge` of columns with no shared name is concatenation |
| Admin.DisplayPostStates | includes/class-wp-post-queue-admin.php:407-412 | the states are kept, and the label "Queued" is appended exactly when the post is queued |
| Admin.PostDateColumnStatus | includes/class-wp-post-queue-admin.php:424-429 | a queued post's date column reads "Queued"; any other keeps its status |
| Admin.QueuedMarksAgree | includes/class-wp-post-queue-admin.php:407-429 | a post is marked queued in its states exactly when its date column is |
| Admin.AdminScreen.GetSettings | includes/class-wp-post-queue-admin.php:277-290 | reads the settings from the site's options with defaults |
| Admin.AdminScreen.HandleTimezoneUpdate | includes/class-wp-post-queue-admin.php:461-479 | the first change to a non-empty value sets the latch and reloads the settings; it recalculates the current order exactly when those settings can drive the calculator, and otherwise leaves the queue as it was; an empty value or a set latch changes nothing |
| Admin.TimezoneReschedulesPausedAsWritten | includes/class-wp-post-queue-admin.php:477-478 | as written, the manager built for a timezone change reads `wpQueuePaused`, so on a paused queue every queued post is re-dated and scheduled at its recalculated time; read under the settings' key, the paused queue is left as it was |
| SettingsStore.DefaultState | client/settings-panel/store.js:10-15 | the initial state is the admin's settings: the stored ones, or the defaults on a fresh site |
| SettingsStore.TypeOf | client/settings-panel/store.js:17-74 | each action creator's type selects the reducer's branch for that action, a different branch per creator; an action of another type keeps its own type |
| SettingsStore.GetSettings | client/settings-panel/store.js:76-80 | the selector answers all four settings of the state |
| SettingsStore.SettersChangeOneField | client/settings-panel/store.js:61-70 | a setter writes its own setting and leaves the other three |
| SettingsStore.ReceiveOverlays | client/settings-panel/store.js:67-68 | receiving overwrites exactly the received keys; a full answer replaces the state; receiving is idempotent |
| SettingsStore.OtherKeepsState | client/settings-panel/store.js:59-74 | an unknown action leaves the state, and before any action the state is the default |
| SettingsStore.SettersCommute | client/settings-panel/store.js:61-70 | setters of different settings commute, and for the same setting the last one wins |
| SettingsStore.ReplayIgnoresOther | client/settings-panel/store.js:59-74 | dropping unknown actions from a history does not change its final state |
| SettingsStore.ReceiveFullResets | client/settings-panel/store.js:67-68 | after the server's full answer the store holds exactly the settings sent, whatever came before |

## Left out

- Timezones, daylight saving and the `strtotime`/`date`/`gmdate`/`get_gmt_from_date` conversions are not modelled. Times are integer seconds in the site's local time, and a day is always 86400 seconds.
- The interval is a PHP float division. The model requires `(end - start)` to be a multiple of `publishTimes + 1`, so the interval is exact; float rounding is not modelled. Settings with an inexact interval, for example six posts a day between 12 am and 1 am, are ones the source schedules normally with a fractional interval; the model does not schedule them (see `Scheduler.Window`).
- `publishTimes = 0` is not modelled. The validator admits it. The interval is then the whole window, so each candidate time falls on the window's end; while that is after `now`, the end-of-day check at manager.php:92 moves it to the end of a later day, one post a day. Once a candidate is at or before `now`, `$index % 0` at manager.php:83 throws a division by zero. The calculator requires at least one post a day.
- The manager's methods use the corrected calculator `Scheduler.NextPublishTime` and read the paused flag the settings carry (`settings.paused`). The source uses the calculator as written and reads `wpQueuePaused`, which is never set. Both are under Findings. The lines below name each member this affects.
- QueueManager.Manager.QueuePost: dates the post with the corrected calculator and schedules it unless the settings say paused. The source can date it `now` on a slot boundary, and schedules it even when paused.
- QueueManager.Manager.RepublishInOrder: uses the corrected calculator, and skips the date and event writes when the settings say paused. The source writes them always.
- QueueManager.Manager.RepublishOne: skips the event update and the date write when the settings say paused (`settings.paused`). The source reads `wpQueuePaused` at manager.php:227 and :237, so it writes both always (Findings, manager.php:227-239).
- QueueManager.Manager.Recalculate: uses the corrected sort, the corrected calculator and the settings' paused flag.
- QueueManager.Manager.RecalculateCurrentOrder: uses the corrected calculator and the settings' paused flag.
- QueueManager.Manager.ShuffleQueuedPosts: uses the corrected calculator and the settings' paused flag.
- QueueManager.Manager.ResumeQueue: uses the corrected calculator and the settings' paused flag.
- QueueManager.Manager.HandlePostStatusChange: uses the corrected calculator and the settings' paused flag.
- QueueManager.Manager.PublishPostNow: does nothing when the settings say paused. The source publishes always (`QueueManager.PublishIgnoresPauseAsWritten`).
- QueueManager.QueueTimeBounds: "after now" is the corrected calculator's bound. As written, the time can be `now` itself (`Scheduler.SlotBoundaryGivesNow`).
- QueueManager.QueuePostKeepsQueue: "after now" and "an event unless paused" hold for the corrected calculator and the settings' flag.
- QueueManager.RecalculateKeepsQueue: states the recalculation with the corrected calculator.
- Scheduler.PastSlotFitsToday: states the corrected count. The same branch with the source's count is `Scheduler.PastSlotFitsTodayAsWritten`; on a slot boundary its slot is one earlier (`Scheduler.SlotBoundaryShiftsSecondPost`).
- Scheduler.PastSlotRollsForward: states the corrected count. The same branch with the source's count is `Scheduler.PastSlotRollsForwardAsWritten`; on a slot boundary the source keeps a post today that the corrected count sends to a later day.
- Scheduler.Schedule: lists the corrected calculator's times. The loop at manager.php:223-225 calls the calculator as written.
- Scheduler.ScheduleOrdered: "all after now" holds for the corrected calculator only. As written, the first time can equal `now`.
- Scheduler.ScheduleOnSlots: states the corrected calculator's times.
- RestApi.UpdateKeepsQueue: states the update with the manager reading the settings' flag. As written, a request that pauses the queue ends with every post rescheduled (`RestApi.PauseUndoneAsWritten`).
- RestApi.Endpoints.UpdateSettings: runs the manager on the corrected calculator and the settings' paused flag.
- RestApi.Endpoints.RecalculateOrder: uses the corrected sort and the corrected calculator.
- Scheduler.Window: `Valid` requires at least one post a day, a start before the end, and an exact interval. The validators accept three other kinds of settings. With no posts a day, the source posts once a day at the window's end until a candidate is at or before `now`, then divides by zero at manager.php:83. With an end before the start, for example "6 pm" to "12 am" where "12 am" reads as second 0, it works with a negative interval; with an end equal to the start, the interval is zero and manager.php:82 divides by zero once a candidate is at or before `now`. With an inexact interval it schedules normally, with a fractional interval. Every operation on such settings is outside the model: the manager and the endpoints require schedulable settings.
- Admin.AdminScreen.HandleTimezoneUpdate: uses the corrected calculator and the settings' paused flag. As written, the manager built at admin.php:477 reads `wpQueuePaused`, so a timezone change on a paused queue re-dates every queued post and schedules an event for each (`Admin.TimezoneReschedulesPausedAsWritten`).
- Admin.AdminScreen.HandleTimezoneUpdate: when the reloaded settings are not schedulable in the model, the model leaves the queue as it was and returns `false`. The source goes on to recalculate with those settings, as `Scheduler.Window` describes: with an inexact interval it re-dates the queue normally with a fractional interval; with no posts a day, or an end at or before the start, it dates the posts at window ends or from a negative interval, or stops on a division by zero.
- A stored paused flag of another type, for example a string, is not modelled. So `update_settings`'s strict `!==` comparison of the flag is a comparison of booleans.
- The REST layer's type coercion is not modelled. `Endpoints.UpdateSettings` takes already typed parameters (`SettingsRequest`), and the validators are modelled separately on raw PHP values.
- RestApi.Endpoints.UpdateSettings: requires that the options read back after the writes are all stored and schedulable. The source would go on with `false` values or divide by zero.
- PostIds.Usort: the source's sort is modelled, but the manager uses the corrected `PostIds.Reorder`. The two agree whenever every queued id is sent (`PostIds.SortsAgreeWhenCovered`), as in the current-order recalculations and the settings page's full list, and on the last page of the post list (`PostIds.LastPageAgrees`). They differ when the post list sends the rows of a page that more queued posts follow (`PostIds.SwapOnPage`, Findings).
- QueueManager.Manager.HandlePostStatusChange: requires that the new status is already stored, as it is when the `transition_post_status` hook runs.
- The `post_date` strings and the `date_column` text of each reported post are not modelled. A report carries the post id and its time in seconds.
- Shuffle randomness is not modelled: `ShuffleQueuedPosts` takes the permutation as a parameter.
- Cron firing is not modelled: `PublishPostNow` is an ordinary method call, and events are a list of (post, time) pairs. WordPress cron removes an event before it runs the hook; the model's `AfterPublish` leaves the fired post's event in the list, so after `PublishPostNow` that post still has its (past) event.
- `remove_scheduled_event`'s `if ($timestamp)` is modelled as "an event is pending". A pending event at timestamp 0 would be skipped by the source.
- `get_next_queue_time` is not part of this model; the manager it would call does not define it.
- The timezone handler's `$gmt_offset` assignment is not modelled. The variable is never read.
- The `static $has_run` latch is shared by every admin object in one PHP request. The model keeps it as a field of one `AdminScreen`.
- `array_merge`'s renumbering of integer keys is not modelled. Columns have string names.
- The settings panel's dynamic typing is not modelled. So are extra keys in received objects, and actions of a handled type whose payload is missing. `saveSettings`, the `controls` and the `apiFetch` calls are left out as asynchronous I/O.
- Hook and route registration, permission callbacks, nonces, script enqueueing and menus are left out as plumbing.
- The classic-editor and post-list scripts are left out; their `post-` prefix stripping is the one modelled in `PostIds.StripPostPrefix`.

## Findings

| source | as written | input that shows it | evidently intended | confidence | as-written member | corrected member |
|---|---|---|---|---|---|---|
| includes/class-wp-post-queue-manager.php:82 | `floor((end - now) / interval)` counts the current slot as remaining when `now` falls exactly on a slot boundary, so the past-slot branch can return `now` itself | two posts a day in 00:00-01:00, `now` = 00:20, index 0, no anchor: the first post is dated 00:20, the current second. The same `now` with index 1 and the anchor 00:00: the second post is dated 00:40 today, where counting only the slots after `now` leaves one free slot for a post that needs two and gives 00:40 of the next day | a slot strictly after `now` (00:40 for index 0), chosen among the slots strictly after `now`; the index-1 date is in the future either way, and is listed because the corrected count moves it | not executed | Scheduler.NextPublishTimeAsWritten, Scheduler.SlotBoundaryGivesNow, Scheduler.PastSlotFitsTodayAsWritten, Scheduler.SlotBoundaryShiftsSecondPost | Scheduler.NextPublishTime, Scheduler.PastSlotFitsToday, Scheduler.PastSlotRollsForward |
| includes/class-wp-post-queue-manager.php:214-218 | a queued post whose id the request leaves out reads its position from `array_flip` as null. Null compares equal to position 0 and below every other position, and the stable `usort` puts such posts at the front, tied with the first sent post | the post list sends the rows of the page shown (client/post-list/index.js:20-24). With posts 1, 2, 3 queued and only 1 and 2 on the page, dragging 2 above 1 sends "2", "1", and the queue becomes 2, 3, 1. With posts 1 to 6 queued two to a page, dragging 4 above 3 on the middle page sends "4", "3", and the queue becomes 1, 2, 4, 5, 6, 3 | the sent posts, in the order sent, take the places the sent posts held, and every other post keeps its place: 2, 1, 3 and 1, 2, 4, 3, 5, 6 | not executed | PostIds.Usort, PostIds.SwapOnPage, PostIds.PageTwoJumpsAhead, PostIds.MiddlePageMovesToEnd | PostIds.Reorder, PostIds.ReorderPlaces, PostIds.SortsPermute |
| includes/class-wp-post-queue-manager.php:227-239 | the recalculation reads the paused flag under `wpQueuePaused`, a key the settings array never has, so it always re-dates and reschedules | `update_settings` with `post_queue_paused` = true on a running queue: `pause_queue` removes every event, then the recalculation at rest-api.php:242-243 schedules every post again. A timezone change while the queue is paused: the manager built at admin.php:477-478 re-dates every queued post and schedules an event for each | pausing leaves the queued posts without events, and a paused queue is not rescheduled | not executed | RestApi.PauseUndoneAsWritten, Admin.TimezoneReschedulesPausedAsWritten | RestApi.UpdateKeepsQueue, RestApi.Endpoints.UpdateSettings, Admin.AdminScreen.HandleTimezoneUpdate |
| includes/class-wp-post-queue-manager.php:165-167 | `publish_post_now` reads the same missing key, so it never returns early | a post's `publish_queued_post` event firing while the queue is paused publishes the post | a paused queue publishes nothing | not executed | QueueManager.PublishIgnoresPauseAsWritten | QueueManager.Manager.PublishPostNow |
