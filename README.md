# Gradescope online-assignment batch creator, modelled in Dafny

`LS_batch_creator.py` drives Gradescope in a browser to create online
assignments one after another. This project models the sequential logic
underneath the browser plumbing, against an abstract page rather than a live
driver:

- **Date normaliser** (`DateTime`). `_parse_24h_to_datetime` strips the text
  and tries the three layouts `YYYY-MM-DD HH:MM`, `YYYY/MM/DD HH:MM` and
  `YYYY-MM-DDTHH:MM`. It also checks the calendar: month lengths, leap years,
  and years 1..9999. `_set_datetime_field` then re-renders the value as
  `YYYY-MM-DD HH:MM`.
- **Details form** (`DetailsForm`). `_fill_create_form` types the title and
  the two dates, then handles four optional groups: late due date, time
  limit, anonymous grading and group submission. Each group has an
  ensure-checked checkbox, and some have a dependent field. A failure inside
  a group is swallowed. A missing title field raises, and so does a missing
  field for a date that parsed.
- **Outline page** (`OutlinePage`). `_fill_outline_page` types the question
  title, the point value and the answer-box template, then presses Save.
  The first control it cannot find ends the page, with nothing raised.
- **Rubric** (`Rubric`). `_setup_rubric` builds the item list, derives the
  rubric-edit URL from the assignment id, and applies the items in order.
  Item 0 edits the default "Correct" item. Each later item clicks
  "Add Rubric Item" and fills the newest item, but only when the page then
  holds more than `i` items. A failed paste touches only its own item. An
  add step can go wrong in two ways: its click raises, which skips the
  filling, or no button matches on that pass, which clicks nothing and still
  fills the newest item. From a rubric holding only the default item, both
  leave one item fewer, and from then on the page never holds more than `i`
  items, so every later add keeps the item as the button added it.
- **One attempt and the batch** (`Workflow`). `create` and `batch_create`
  are stated as functions of the page before and an `Env`. The `Env`
  records how the site behaves during one attempt: which buttons become
  clickable, what the forms hold when they open, which controls can be
  found, and where a rubric item raises.
- **The creator object** (`Creator.OnlineCreator`). The object holds the
  normalised course URL and the browser state (`page`). Its methods follow
  the script's methods step by step: the type-button loop, the
  ensure-checked clicks, the rubric loops, and the batch loop with its
  counters. Each method is proved to leave `page` exactly as the matching
  function of `Workflow`, `DetailsForm`, `OutlinePage` or `Rubric` says.

`Wrappers` holds `Option`. `Text` models the Python string operations the
script uses: `strip`, `rstrip`, `capitalize`, `in`/`find`, `split('/')[0]`
and `str` of an integer.

`create` does not give up when the type dialog has no "Online Assignment"
button. Its loop (LS_batch_creator.py:353-356) clicks nothing and the
attempt goes on to "Next"; `FirstOnline` is then `None` and nothing else
changes.

## Model

| member | source | states |
|---|---|---|
| Text.TrimTrailing | LS_batch_creator.py:66 | `rstrip('/')` returns a prefix of the input. Every character it removes is `/`, and the result does not end in `/`. |
| Text.TrimTrailingIdempotent | LS_batch_creator.py:66 | Stripping trailing slashes a second time changes nothing. |
| Text.StripPadded | LS_batch_creator.py:127 | `strip()` removes exactly the whitespace around a text whose ends are not whitespace. |
| Text.Capitalize | LS_batch_creator.py:246 | `capitalize()` keeps the length, upper-cases the first character and lower-cases every other one. |
| Text.CapitalizeIdempotent | LS_batch_creator.py:246 | Capitalising a capitalised description changes nothing. |
| Text.Find | LS_batch_creator.py:235-236 | It returns the first position where the pattern occurs, with no occurrence before it. It returns `None` exactly when the pattern occurs nowhere. |
| Text.UpTo | LS_batch_creator.py:237 | `split('/')[0]` of a suffix is a slash-free segment of the text that ends at the next `/` or at the end. |
| DateTime.DaysInMonth | LS_batch_creator.py:127 | A month has 28 to 31 days, and February has 29 exactly in Gregorian leap years. |
| DateTime.NumberOfPadded | LS_batch_creator.py:137 | A zero-padded field of `strftime` has its width, consists of digits, and reads back as the number. |
| DateTime.PaddedOfNumber | LS_batch_creator.py:127 | A fixed-width digit field that `strptime` reads is the padding of its own value. |
| DateTime.RenderShape | LS_batch_creator.py:137 | A rendered date-time has 16 characters, with separators at positions 4, 7, 10 and 13 and padded digit fields between them. |
| DateTime.ParseLayout | LS_batch_creator.py:125-127 | Whatever one `strptime` layout accepts is a valid calendar date-time. |
| DateTime.Parse24h | LS_batch_creator.py:124-130 | A parsed value is a valid calendar date-time. |
| DateTime.ParseRender | LS_batch_creator.py:125-127 | Each layout reads back the date-time written in that layout. |
| DateTime.RenderParse | LS_batch_creator.py:125-127 | Any text a layout accepts is the value it returns, written in that layout. |
| DateTime.ParseSound | LS_batch_creator.py:124-130 | On success, the stripped input is the returned valid date-time written in one of the three accepted layouts. |
| DateTime.ParseComplete | LS_batch_creator.py:124-130 | A valid date-time in any accepted layout, with any surrounding whitespace, parses to that date-time. |
| DateTime.Normalize | LS_batch_creator.py:132-137 | Reformatting yields a text exactly when parsing succeeds. |
| DateTime.NormalizeShape | LS_batch_creator.py:137 | A normalised text has the canonical zero-padded `YYYY-MM-DD HH:MM` shape. |
| DateTime.NormalizeIdempotent | LS_batch_creator.py:132-137 | Normalising a normalised text returns it unchanged. |
| DateTime.NormalizeCanonical | LS_batch_creator.py:132-137 | A canonical text for a valid date-time, with any surrounding whitespace, normalises to that canonical text. |
| DateTime.RejectsMonthName | LS_batch_creator.py:124-130 | `"Jan 5 2024"` matches no layout and is rejected. |
| DateTime.LeapDay | LS_batch_creator.py:127 | February 29th is a valid date exactly in leap years, and a leap day in any accepted layout parses. |
| DateTime.NonLeapDayRejected | LS_batch_creator.py:127 | `"2023-02-29 08:30"` is rejected. |
| Rubric.BuildItems | LS_batch_creator.py:243-248 | The item list has the dict's length and order. Each description is capitalised and each points value is unchanged. |
| Rubric.AssignmentId | LS_batch_creator.py:235-237 | There is an id exactly when the URL contains `/assignments/`. The id is the slash-free text after the first occurrence, up to the next `/` or the end. |
| Rubric.RubricUrl | LS_batch_creator.py:235-238 | The URL is built only when there is an id, and it is `course_url + "/assignments/" + id + "/rubric/edit"`. |
| Rubric.RubricUrlKeepsId | LS_batch_creator.py:235-238 | Reading the id back from the rubric URL gives the same id, provided the course URL contains no `/assignments/` of its own. |
| Rubric.UpToIsSegment | LS_batch_creator.py:237 | `split('/')[0]` of a suffix that starts with a slash-free segment followed by `/` returns exactly that segment. |
| Rubric.FirstLabelled | LS_batch_creator.py:253-255 | It finds the first item labelled "Correct", with none labelled so before it, or reports that there is none. |
| Rubric.AddsMadeBound | LS_batch_creator.py:282-295 | Each failed add is one item fewer. With no failed add, k items make k-1 adds; after a failed add the adds stay at least one behind the item index. |
| Rubric.SyncedFromDefault | LS_batch_creator.py:250-338 | From a rubric holding only the default item and with an add button, applying k items leaves the default plus one item per add that went through. Up to the first failed add, items are in input order and each is its target unless its paste failed, touching only that item. Every item after that failure keeps what the button added. |
| Rubric.FailedAddDropsRest | LS_batch_creator.py:282-295 | When the add of item m fails and nothing fails before it, the rubric is shorter than the list, its first m items are the targets, and every later item keeps what the button added. |
| Rubric.AddStepOutcomes | LS_batch_creator.py:282-333 | A raised add click leaves the items unchanged. A pass with no button still fills the newest item when the page holds more than `i` items, and otherwise changes nothing. A successful add with no paste failure on a page of `i` items appends the target. |
| Rubric.AddOnShortPage | LS_batch_creator.py:282-333 | On a page holding at most `i` items, an add step keeps those items and appends one item unless the add failed. That item is filled only when the page held exactly `i` items. |
| Rubric.FirstFailureIs | LS_batch_creator.py:282-295 | An add that fails with no failed add before it is the first failed add. |
| Rubric.SyncedFaultFree | LS_batch_creator.py:250-338 | With no failures, N targets give exactly those N items in order. |
| Rubric.SyncedWithoutAddButton | LS_batch_creator.py:284-296 | Without an "Add Rubric Item" button, only the default item is ever written. |
| DetailsForm.Check | LS_batch_creator.py:163-165 | Ensure-checked: afterwards the box is ticked. It is clicked exactly when it was not ticked before. |
| DetailsForm.CheckIdempotent | LS_batch_creator.py:163-165 | Ensure-checked twice gives the same state and the same clicks as once. |
| DetailsForm.DateStep | LS_batch_creator.py:132-148 | An unparsed date leaves the form alone. A parsed date is typed as normalised. The step fails only when a parsed date's field is missing. |
| DetailsForm.LatePart | LS_batch_creator.py:161-169 | Tick the late box when asked and found, then type the normalised late date when its field is found. Otherwise nothing changes. |
| DetailsForm.TimeLimitPart | LS_batch_creator.py:171-182 | Tick the time-limit box when asked and found, then type the minutes when they are non-zero and the field is found. |
| DetailsForm.AnonymousPart | LS_batch_creator.py:184-190 | Tick the anonymous-grading box when asked and found. |
| DetailsForm.GroupPart | LS_batch_creator.py:192-203 | Tick the group box when asked and found, then type the group size when it is non-zero and the field is found. |
| DetailsForm.OptionalPartsClosedForm | LS_batch_creator.py:161-203 | The four groups tick the asked boxes, click each of those not yet ticked once in form order, and type the group texts. |
| DetailsForm.FillClosedForm | LS_batch_creator.py:150-205 | Filling ticks the `Ticked` boxes, lays the written texts over the form, clicks exactly the newly ticked boxes, and completes exactly when the required fields resolve. |
| DetailsForm.FillState | LS_batch_creator.py:150-205 | Box by box and field by field, filling leaves a box ticked iff it was ticked before or its group asked for it. A box is clicked iff it was not ticked and its group asked for it, and never twice. A box whose flag is `None`/`False` is left as it was. Each field reads what was typed into it, or what it read before. |
| DetailsForm.FillIdempotent | LS_batch_creator.py:161-203 | Filling again on the filled form gives the same form and clicks nothing. |
| DetailsForm.FillDates | LS_batch_creator.py:153-158 | When the form goes through, the title is typed. A parsed release or due date is typed as normalised, and an unparsed one leaves its field as it was. |
| OutlinePage.OutlineValues | LS_batch_creator.py:210-222 | Each outline field that filling reaches holds its text: the question title, `str(total_points)` or the template. Every other field keeps its old text. |
| OutlinePage.SavedMeansFilled | LS_batch_creator.py:210-227 | When Save is pressed, the points, the template and the title (when there is question text) are all in. |
| Workflow.FirstOnline | LS_batch_creator.py:353-356 | It picks the first type button mentioning "Online Assignment", with none before it, or none when no button does. |
| Workflow.RequiredKeeps | LS_batch_creator.py:349-370 | The required steps open no URL and touch neither the outline nor the rubric. |
| Workflow.RequiredOk | LS_batch_creator.py:349-362 | Required steps that reach the form pick the type and leave the form as filling leaves it. |
| Workflow.FinishReturnsToList | LS_batch_creator.py:372-385 | Either exit ends on the assignment list, which is the last URL opened. Earlier visits are kept and no pause is taken. |
| Workflow.FinishOk | LS_batch_creator.py:372-380 | A successful attempt fills the outline, opens the rubric editor when needed, then opens the list. |
| Workflow.CreateReturnsToList | LS_batch_creator.py:343-385 | Both exits of `create` call `goto_assignments`: the list is the last URL, and the visits before the attempt are kept. |
| Workflow.FailedCreateOnlyTouchesForm | LS_batch_creator.py:382-385 | A failed attempt changes neither the outline nor the rubric, and its only visit is the list. |
| Workflow.CreatedPage | LS_batch_creator.py:343-380 | A successful attempt leaves the chosen type, the filled form, the filled outline and the Save state. Its visits are the rubric editor (when needed) and then the list. |
| Workflow.CreatedRubric | LS_batch_creator.py:374-376 | A successful attempt with a rubric and a default-item editor leaves the default plus one item per add that went through, and as many add clicks. Up to the first failed add, item j is dict entry j, capitalised, unless its paste failed; later items keep what the button added. |
| Workflow.CreatedRubricAllAdded | LS_batch_creator.py:374-376 | When every add goes through, the rubric has one item per dict entry, in order, after exactly N-1 add clicks. |
| Workflow.OutcomeIgnoresBestEffort | LS_batch_creator.py:372-380 | Nothing the outline and rubric steps meet changes what `create` returns. |
| Workflow.BatchAccounts | LS_batch_creator.py:387-402 | `success_count + len(failed_names) == len(assignments)`. |
| Workflow.FailedIndicesExact | LS_batch_creator.py:394-397 | The failed positions are exactly those whose attempt failed, each once, in increasing order. |
| Workflow.FailedNamesInOrder | LS_batch_creator.py:394-397 | `failed_names` is the names at the failed positions, in input order. |
| Workflow.BatchPausesAndEnd | LS_batch_creator.py:399-400 | N items pause N-1 times, and a non-empty batch ends on the assignment list. |
| Creator.OnlineCreator.constructor | LS_batch_creator.py:63-66 | The course URL loses its trailing slashes, and the browser starts out untouched. |
| Creator.OnlineCreator.GotoAssignments | LS_batch_creator.py:106-112 | It opens `course_url + "/assignments"`. |
| Creator.OnlineCreator.EnsureChecked | LS_batch_creator.py:163-165 | The box ends ticked, is clicked only if it was not ticked, and nothing else changes. |
| Creator.OnlineCreator.SetDateTimeField | LS_batch_creator.py:132-148 | It returns `False` exactly for an unparsed date, without touching the page. It raises exactly when a parsed date's field is missing. Otherwise it types the normalised text. |
| Creator.OnlineCreator.FillDate | LS_batch_creator.py:157-158 | One date step of the form, as `DateStep` states it. |
| Creator.OnlineCreator.AllowLateGroup | LS_batch_creator.py:161-169 | It leaves the page as `LatePart` says. |
| Creator.OnlineCreator.TimeLimitGroup | LS_batch_creator.py:171-182 | It leaves the page as `TimeLimitPart` says. |
| Creator.OnlineCreator.AnonymousGroup | LS_batch_creator.py:184-190 | It leaves the page as `AnonymousPart` says. |
| Creator.OnlineCreator.GroupSubmissionGroup | LS_batch_creator.py:192-203 | It leaves the page as `GroupPart` says. |
| Creator.OnlineCreator.FillRequiredFields | LS_batch_creator.py:153-158 | It fills the title and the dates as `RequiredPart` says, and reports whether they went through. |
| Creator.OnlineCreator.FillOptionalGroups | LS_batch_creator.py:161-203 | It fills the four groups in order, as `OptionalParts` says. |
| Creator.OnlineCreator.FillCreateForm | LS_batch_creator.py:150-205 | The form, the clicks and whether it raised are exactly those of `Fill`, whose properties are `FillState`, `FillIdempotent` and `FillDates`. |
| Creator.OnlineCreator.ChooseType | LS_batch_creator.py:353-356 | The loop clicks the button `FirstOnline` picks, or none. |
| Creator.OnlineCreator.FillOutlinePage | LS_batch_creator.py:207-229 | The outline ends as `OutlineValues` says. Save is pressed exactly when every step got through. |
| Creator.OnlineCreator.OpenRubricEditor | LS_batch_creator.py:233-241 | The rubric editor is opened exactly when the current URL names an assignment, and it is opened at `RubricUrl`. |
| Creator.OnlineCreator.ApplyItems | LS_batch_creator.py:250-338 | From any starting rubric, the rubric ends as `Synced` says for all items. This covers a raised add click and a pass with no button, which still fills the newest item. The add clicks grow by `AddClicks`: one per add that went through. |
| Creator.OnlineCreator.SetupRubric | LS_batch_creator.py:231-341 | The page ends as `RubricAfter` says. |
| Creator.OnlineCreator.RequiredSteps | LS_batch_creator.py:346-370 | It returns `true` exactly when `Succeeds`, and leaves the page as `AfterRequired` says. |
| Creator.OnlineCreator.Create | LS_batch_creator.py:343-385 | It returns `True` exactly when `Succeeds`, and leaves the page as `AfterCreate` says. |
| Creator.OnlineCreator.Attempt | LS_batch_creator.py:394-400 | One attempt of the batch: `create`, then a pause unless it is the last item. |
| Creator.OnlineCreator.BatchCreate | LS_batch_creator.py:387-402 | `success_count` counts the successful attempts, and `failed_names` holds the failed names in order. The page ends as `AfterBatch` says. |

## Left out

- Browser lifecycle, Chrome options, login and `_ensure_element_visible` (LS_batch_creator.py:68-104, 114-122): these are driver I/O with no logic to state.
- `time.sleep` and `WebDriverWait` timeouts: a wait is a step that succeeds or fails as the attempt's `Env` says. The only pause modelled is the one between batch items.
- The clipboard and keystroke sequences: pasting a value into a field is an atomic assignment of that field.
- Creator.OnlineCreator.GotoAssignments: does not model `driver.get` raising, whose `False` return `create` ignores anyway.
- Creator.OnlineCreator.SetupRubric: does not model `current_url` or `driver.get(rubric_url)` raising. The per-item failures of the two item branches are modelled as `Rubric.Fault`: the description paste, the points paste, and the "Add Rubric Item" click raising (`AddFails`, no filling), and no button being found on that pass (`NoAddButton`, the newest item is still filled when the page holds more than `i` items).
- Creator.OnlineCreator.ApplyItems: one fault per item. A pass that finds no button and whose pastes then raise is not expressible. `RubricPage.addButton` says whether the editor has the button at all.
- Save on the outline page is taken not to navigate: `_setup_rubric` reads the assignment id from the URL the final "Create Assignment" click led to.
- Rubric.SyncedFromDefault: the paragraph heuristic for later items (LS_batch_creator.py:299-311) depends on live page text. It is abstracted as "the newest item's description is filled".
- The rubric's points are `real`, and the pasted text `str(points)` is taken to set that value.
- DateTime.Parse24h: does not accept the non-padded fields and other leniency of `strptime`. Fields are fixed-width and zero-padded. Calendar validation, whitespace stripping and either case of `T` are kept. The model takes one whitespace character for the layout's space; a run of whitespace, which `strptime` accepts, is not accepted.
- DateTime.NormalizeIdempotent: `Format` always pads the year to four digits. On CPython versions that hand `%Y` to glibc unchanged, years below 1000 are not padded, so there `Normalize("0999-01-01 00:00")` yields `"999-01-01 00:00"`, which no longer parses; the model's idempotence holds only where `%Y` pads.
- Text.Capitalize: ASCII case mapping only, not Python's full Unicode mapping.
- Text.IntText: states only that `str(n)` is non-empty and starts with `-` exactly for negative numbers, not its decimal value.
- What the site does during an attempt, such as which controls exist and what pages hold, is an `Env` parameter per attempt. The site itself is not modelled.
- `load_from_json`, `main` and logging: these are file reading, prompts and console output.
