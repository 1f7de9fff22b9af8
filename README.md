# Recruitment wizard and helpers of the club portal front-end, in Dafny

This project models the small amount of sequential logic inside the club portal's React
front-end, and proves properties of it:

- **The recruitment application wizard** (`src/app/recruit/application/page.tsx`) is a
  class, `Application.Wizard`. It holds the step index, the `isProcessing` guard, the `go`
  transitions still waiting for their 400 ms timer, the answers, the loading state, and the
  browser storage the page reads and writes: `recruit:step`, `recruit:data`,
  `recruit:stacks`, and session storage with its one-shot flags `recruit:final_edit`,
  `recruit:back` and `recruit:prev-develop`. `go` is split into its two events. `Go` marks
  the page busy. `Settle` is the timer: it sets the step and clears the mark, and every
  step change is written back to storage. The arguments of `go` (a number or an updater
  function) become the `Intent` datatype, resolved at settle time by `Resolve`. The back
  arrow's updater removes `recruit:prev-develop` when it takes the 15 -> 8 shortcut.
- **The form steps 0, 2, 7, 16 and 17** (`src/app/recruit/form/_step/`) are modules whose
  handlers act on the wizard. The local state of the step component on screen (its
  `clicked` guard and the final-edit flag it read on mount) is a `StepState` object. Each
  mount creates a new one. The outcomes of validation and of the duplicate student ID
  check are parameters.
- **The recruitment-period decisions** (`Window`) are two functions over integer instants.
  The wizard's access guard is `MayApply`. The landing page's four-way status choice is
  `RecruitStatus`. The date library is abstract: a `Clock` supplies the string parser,
  `startOfDay` and `endOfDay`. `ValidClock` states `startOfDay(t) <= t <= endOfDay(t)` and
  the monotonicity of both.
- **The pure helpers of `src/lib/util.ts`** (`Util`) are `toDate` with its nine-hour shift,
  the two zero-padded date formatters, `nowPath`, and the query stripping
  `url.replace(/\?.+$/, '')` applied to uploaded URLs. The `Date` getters are a parameter
  `calendar`.
- **The landing page** (`src/app/recruit/page.tsx`, module `Landing`) contributes its
  information cards, its view while fetching, and the confetti reset.
- **The "change my info" modal** (`Profile`) maps between the user record and the form,
  where `''` stands for an absent value. `Profile.InfoModal` holds the modal's state: the
  user, the form, whether an upload is running, and the requests sent.

`Scenarios` chains events the way the pages do and checks, from the contracts alone, what
the pages evidently aim at.

## Model

| member | source | states |
|---|---|---|
| `Util.TwoDigitsDecodes` | src/lib/util.ts:36-37 | `String(n).padStart(2, '0')` for n < 100 is exactly two digits that read back as n |
| `Util.IntToString` | src/app/recruit/application/page.tsx:175 | `step.toString()` is never empty, starts with `-` exactly for a negative step, and is otherwise decimal digits |
| `Util.ParseInt` | src/app/recruit/application/page.tsx:158 | `Number(step)` on decimal text: a value exactly for an optional minus sign followed by at least one digit, of the sign the text shows |
| `Util.IntTextRoundTrip` | src/app/recruit/application/page.tsx:158-175 | `Number(String(i)) == i` for every integer |
| `Util.Utf16Length` | src/app/recruit/form/_step/7.tsx:64 | `s.length` counts UTF-16 code units: between the number of characters and twice it, and exactly it when no character lies above U+FFFF |
| `Util.AstralLengthDoubles` | src/app/recruit/form/_step/7.tsx:64 | a string made only of characters above U+FFFF has twice as many code units as characters |
| `Util.ToDate` | src/lib/util.ts:28-31 | a `Date` argument is returned unchanged; a string becomes its parsed instant plus exactly 32,400,000 ms |
| `Util.ToDateIdempotent` | src/lib/util.ts:29 | passing `toDate`'s result back to `toDate` does not shift it a second time |
| `Util.FormatDateApi` | src/lib/util.ts:33-40 | the text is the year's digits plus six characters |
| `Util.FormatDateApiRoundTrip` | src/lib/util.ts:33-40 | `year-MM-DD` reads back as the calendar year, `getMonth() + 1` and `getDate()` |
| `Util.FormatDate` | src/lib/util.ts:42-51 | the text starts with the year and is 9 characters longer, 13 with the weekday |
| `Util.FormatDateFields` | src/lib/util.ts:42-51 | `{year}년 {MM}월 {DD}일` holds the year, then the literal `년 `, two digits decoding to `getMonth() + 1`, `월 `, two digits decoding to `getDate()` and `일`; the weekday form is the plain form followed by ` (`, a day name decoding to `getDay()`, and `)` |
| `Util.NowPath` | src/lib/util.ts:55-57 | the result is the tail of `href` after its first `origin.length` characters, or empty when `origin` is longer |
| `Util.NowPathRestores` | src/lib/util.ts:55-57 | when `href` starts with `origin`, putting `origin` back in front gives `href` |
| `Util.FirstMatch` | src/lib/util.ts:77 | finds the leftmost position where `/\?.+$/` matches: a `?` followed by one or more characters up to the end, none of them a line terminator |
| `Util.StripQuery` | src/lib/util.ts:77 | the result is a prefix of the URL: the whole URL exactly when the pattern matches nowhere, otherwise the part before the leftmost match |
| `Util.StripQueryIdempotent` | src/lib/util.ts:77 | stripping a stripped URL changes nothing |
| `Util.StripQueryNewlineFree` | src/lib/util.ts:77 | on a URL without line breaks, stripping cuts at the first `?` when at least one character follows it, and leaves the URL unchanged otherwise |
| `Window.MayApply` | src/app/recruit/application/page.tsx:130-138 | the wizard admits exactly when a recruitment exists and `startOfDay(start) <= now <= endOfDay(end)` |
| `Window.AdmittedWithinDays` | src/app/recruit/application/page.tsx:130-134 | an admitted instant lies between the start instant's day start and the end instant's day end, so that period is not empty |
| `Window.StartInstantAdmitted` | src/app/recruit/application/page.tsx:130-134 | when start is no later than end, the shifted start and end instants themselves are admitted |
| `Window.RecruitStatus` | src/app/recruit/page.tsx:133-153 | "ended" exactly when `startOfDay(start) <= now`; "from {start}" exactly when `now < startOfDay(start)` and `now <= endOfDay(end)`, its text being the start date formatted with its weekday as the information card shows it; the apply button (signed out) or the logout button (signed in) exactly when `endOfDay(end) < now < startOfDay(start)` |
| `Window.ButtonsUnreachable` | src/app/recruit/page.tsx:133-153 | when `startOfDay(start) <= endOfDay(end)`, neither button can be shown |
| `Window.OpenPeriodShownAsEnded` | src/app/recruit/page.tsx:133-134 | at every instant the wizard's guard admits, the landing page says the application has ended |
| `Window.IntendedStatus` | src/app/recruit/page.tsx:133-153 | corrected order: a button exactly when the guard admits, the apply button only signed out and the logout button only signed in; "ended" exactly after the end day; "from {start}" exactly before the start day, with the formatted start date as its text |
| `Application.Defaults` | src/app/recruit/application/page.tsx:77-92 | every default answer is `''` or `[]` |
| `Application.Restored` | src/app/recruit/application/page.tsx:161-171 | restoring stored data overwrites exactly the stored keys; every other field keeps its default |
| `Application.RestoredStep` | src/app/recruit/application/page.tsx:153-159 | an absent or empty `recruit:step` keeps the initial 0; a decimal entry gives its number |
| `Application.StepTextRoundTrip` | src/app/recruit/application/page.tsx:174-176 | the step text written after each change reads back as that step |
| `Application.ReloadRestores` | src/app/recruit/application/page.tsx:153-184 | remounting over the persisted step and answers gives back the same step and the same answers |
| `Application.ResumeExample` | src/app/recruit/application/page.tsx:153-171 | stored step "5" and data `{name: "Kim"}` resume at step 5 with name "Kim" and the other fields at their defaults |
| `Application.Resolve` | src/app/recruit/application/page.tsx:207-214 | only the back arrow's updater touches session storage |
| `Application.BackRule` | src/app/recruit/application/page.tsx:207-213 | back from 15 with `recruit:prev-develop` = 'false' lands on 8 and removes that flag; every other back lands on `prev - 1` with session storage untouched |
| `Application.BackStaysInRange` | src/app/recruit/application/page.tsx:190-213 | from a step above 0, back lands on a smaller step that is not negative |
| `Application.ForwardAdvances` | src/app/recruit/form/_step/16.tsx:195 | a forward intent from before the summary moves strictly forwards and not past 18; in final-edit mode it lands on 18 exactly |
| `Application.Wizard.Mount` | src/app/recruit/application/page.tsx:68-176 | mounting restores the step and the answers from storage, shows the resumed or fresh notice, starts loading and idle, writes the step back and leaves the stored answers as they were |
| `Application.Wizard.RestoreStep` | src/app/recruit/application/page.tsx:153-159 | a non-empty stored step replaces the step; an absent or empty one leaves it |
| `Application.Wizard.RestoreData` | src/app/recruit/application/page.tsx:161-172 | the loop sets every stored entry, so the answers become the old answers overridden by the stored data; the answers are written back to `recruit:data` only once the form subscription exists (the re-run when `recruit` changes), not on the first mount |
| `Application.Wizard.LoadRecruit` | src/app/recruit/application/page.tsx:126-143 | an admitted recruitment loads the page without changing the answers, and writes them back to `recruit:data` only when `recruit` changed and stored answers were restored; a refused one shows an error, replaces the route with '/', leaves the page loading and leaves `recruit:data` untouched |
| `Application.Wizard.SetValue` | src/app/recruit/application/page.tsx:178-184 | setting a value updates that answer and writes all answers to `recruit:data` |
| `Application.Wizard.Go` | src/app/recruit/application/page.tsx:95-102 | `go` marks the page busy at once and queues the intent; the step does not change yet |
| `Application.Wizard.Settle` | src/app/recruit/application/page.tsx:99-102 | the timer sets the step and session to the resolved intent and clears `isProcessing` together; the resolved step must index the table |
| `Application.Wizard.ShiftStep` | src/app/recruit/form/_step/16.tsx:43 | a direct `setStep(prev => prev + amount)` moves the step by `amount` and persists it |
| `Application.Wizard.BackArrowClick` | src/app/recruit/application/page.tsx:190-215 | the arrow exists only above step 0; a click while busy changes nothing, otherwise it queues the back intent |
| `Application.StepState.constructor` | src/app/recruit/form/_step/16.tsx:34-36 | a freshly mounted step starts with `clicked` false and the final-edit flag it read |
| `Application.ValidatedContinue` | src/app/recruit/form/_step/16.tsx:187-199 | a valid continue disables the buttons, drops `recruit:final_edit` in final-edit mode and goes to 18 or `prev + 1`; an invalid one shows the message, enables the buttons again, and neither navigates nor touches session storage |
| `Store.RecruitStore.constructor` | src/app/recruit/form/_step/2.tsx:22 | the store as step 2 reads it: the given `step`, `modify` and `confetti`, not cleared, no `modify` reset pending |
| `StepZero.YesEnabled` | src/app/recruit/form/_step/0.tsx:148 | "yes" is enabled exactly when not clicked and the checkbox is exactly `true`; never while it is indeterminate |
| `StepZero.YesLabel` | src/app/recruit/form/_step/0.tsx:155 | the label reads '수정 완료' exactly in final-edit mode |
| `StepZero.Step0State.constructor` | src/app/recruit/form/_step/0.tsx:23-27 | step 0's local state starts unclicked, with the checkbox `'indeterminate'` and the final-edit flag it read |
| `StepZero.Mount` | src/app/recruit/form/_step/0.tsx:23-27 | the step starts unclicked with the checkbox `'indeterminate'` and reads the final-edit flag |
| `StepZero.SetAgreement` | src/app/recruit/form/_step/0.tsx:102-106 | the checkbox state becomes the new value |
| `StepZero.Yes` | src/app/recruit/form/_step/0.tsx:145-154 | "yes" disables the buttons, marks the page busy and queues 18 in final-edit mode or `prev + 1`; `recruit:final_edit` is read but never removed |
| `StepZero.No` | src/app/recruit/form/_step/0.tsx:134-144 | "no" disables both buttons and goes back in history, leaving the wizard's step and transitions as they were |
| `StepTwo.NextTarget` | src/app/recruit/form/_step/2.tsx:105 | the target is `modify` when it is truthy and `step + 1` otherwise, so a `modify` of 0 behaves like none |
| `StepTwo.ButtonLabel` | src/app/recruit/form/_step/2.tsx:113 | the label reads '수정 완료' exactly when `modify` is truthy |
| `StepTwo.Continue` | src/app/recruit/form/_step/2.tsx:87-111 | failed validation: no duplicate check, no navigation, busy state unchanged, message shown, button enabled again. Duplicate: store cleared, notice shown, route replaced with '/recruit', no `go`, busy state unchanged. Otherwise: the page is busy and `go(modify \|\| step + 1)` is queued, plus a scheduled `modify` reset when it was truthy |
| `StepTwo.ModifyResetFires` | src/app/recruit/form/_step/2.tsx:106 | the delayed reset sets `modify` to `undefined` |
| `StepSeven.CharCounter` | src/app/recruit/form/_step/7.tsx:61-68 | the counter is red exactly when the length exceeds the limit |
| `StepSeven.CounterShowsLength` | src/app/recruit/form/_step/7.tsx:61-68 | the counter reads the length in decimal, then " / ", then the limit |
| `StepSeven.SelfIntroduceCounter` | src/app/recruit/form/_step/7.tsx:61-68 | red exactly when `selfIntroduce.length`, counted in UTF-16 code units, exceeds 500; more than 500 characters is always red, and for text without astral characters red means exactly more than 500 characters |
| `StepSeven.EmojiCountTwice` | src/app/recruit/form/_step/7.tsx:61-68 | 300 emoji (U+1F600) already turn the counter red: JavaScript counts 600 |
| `StepSeven.Continue` | src/app/recruit/form/_step/7.tsx:102-121 | the only transition: valid marks the page busy, shows nothing, and goes to 18 dropping the flag in final-edit mode, or to `prev + 1`; invalid shows the message, enables the button again, and leaves the busy state, the transitions and session storage as they were |
| `StepSixteen.Direction` | src/app/recruit/form/_step/16.tsx:40 | the mount moves by -1 exactly when `recruit:back` is 'true', and by +1 otherwise |
| `StepSixteen.Without` | src/app/recruit/form/_step/16.tsx:128 | `filter(s => s !== value)` keeps every other element with its multiplicity and no copy of `value` |
| `StepSixteen.WithoutConcat` | src/app/recruit/form/_step/16.tsx:128 | the filter keeps order: filtering a concatenation filters each part and concatenates the results |
| `StepSixteen.Toggle` | src/app/recruit/form/_step/16.tsx:125-130 | when the item is absent the selected value is appended after the unchanged list; when present, the value is gone and every other element keeps its multiplicity |
| `StepSixteen.ToggleFlips` | src/app/recruit/form/_step/16.tsx:125-130 | selecting an absent stack appends it at the end; selecting a present one filters it out; every other stack keeps its membership |
| `StepSixteen.ToggleTwiceRestores` | src/app/recruit/form/_step/16.tsx:125-130 | selecting an absent stack twice gives back the original list |
| `StepSixteen.Mount` | src/app/recruit/form/_step/16.tsx:36-50 | without 'design', the step moves by the direction and `recruit:back` stays; with 'design', the step stays and `recruit:back` is removed; `recruit:final_edit` is removed when the step was entered in final-edit mode |
| `StepSixteen.Skip` | src/app/recruit/form/_step/16.tsx:168-181 | skip (absent in final-edit mode) disables the buttons, sets `designTechStacks` to `[]`, writes the answers to `recruit:data`, marks the page busy and queues `prev + 1` |
| `StepSixteen.Continue` | src/app/recruit/form/_step/16.tsx:184-203 | valid marks the page busy, shows nothing, and goes to 18 dropping the flag in final-edit mode, or to `prev + 1`; invalid shows the message, sets `clicked` back to false, and leaves the busy state, the transitions and session storage as they were |
| `StepSeventeen.FavoriteProjectCounter` | src/app/recruit/form/_step/17.tsx:74-77 | red exactly when the value exists and its UTF-16 length exceeds 700; a missing value counts as 0 |
| `StepSeventeen.Skip` | src/app/recruit/form/_step/17.tsx:113-126 | skip (absent in final-edit mode) disables the buttons, sets `favoriteProject` to `''`, writes the answers to `recruit:data`, marks the page busy and queues `prev + 1` |
| `StepSeventeen.Continue` | src/app/recruit/form/_step/17.tsx:128-147 | valid marks the page busy, shows nothing, and goes to 18 removing `recruit:final_edit` in final-edit mode, or to `prev + 1`; invalid shows the message, enables the buttons again, and leaves the busy state, the transitions and session storage as they were |
| `Landing.Infos` | src/app/recruit/page.tsx:47-60 | no recruitment gives no cards; a recruitment gives exactly '지원 기간' then '면접 일정', each reading `{start} ~\n{end}` with both dates formatted with their weekday |
| `Landing.View` | src/app/recruit/page.tsx:74-155 | nothing is rendered while the fetch is in flight; afterwards the heading year is the recruitment's or this year's, and a status exists exactly when a recruitment does |
| `Landing.LandingPage.Mount` | src/app/recruit/page.tsx:62-67 | mounting starts the fetch with no recruitment yet |
| `Landing.LandingPage.Fetched` | src/app/recruit/page.tsx:62-67 | the fetch's answer becomes the recruitment and ends the in-flight state |
| `Landing.ConfettiEffect` | src/app/recruit/page.tsx:69-72 | after the effect the confetti flag is false |
| `Profile.DefaultForm` | src/component/layout/_components/modal/change-my-info.tsx:35-41 | all five fields default to `''` |
| `Profile.OrEmpty` | src/component/layout/_components/modal/change-my-info.tsx:70-76 | `value \|\| ''` is empty exactly for a missing or empty value, and is the value otherwise |
| `Profile.OrAbsent` | src/component/layout/_components/modal/change-my-info.tsx:48-54 | `s \|\| undefined` is absent exactly for `''`, and is `s` otherwise |
| `Profile.ResetForm` | src/component/layout/_components/modal/change-my-info.tsx:69-77 | each field is filled from the user record, the social ones from `user.social`, with `''` where missing; no user gives the defaults |
| `Profile.Submit` | src/component/layout/_components/modal/change-my-info.tsx:48-54 | each empty field is sent as absent, and each non-empty one is sent unchanged |
| `Profile.SubmitAfterReset` | src/component/layout/_components/modal/change-my-info.tsx:48-76 | submitting right after a reset sends the user's values back exactly, provided none is `''` |
| `Profile.EmptyValueIsDropped` | src/component/layout/_components/modal/change-my-info.tsx:49-71 | a stored `''` avatar comes back as absent: the case the round trip excludes |
| `Profile.ResetAfterSubmit` | src/component/layout/_components/modal/change-my-info.tsx:48-76 | a submitted form, stored as sent and read back, refills the same form |
| `Profile.ShowsTrashButton` | src/component/layout/_components/modal/change-my-info.tsx:108 | the delete button exists exactly when the user has a non-empty avatar |
| `Profile.InfoModal.Open` | src/component/layout/_components/modal/change-my-info.tsx:32-77 | opening the modal fills the form from the user, with no upload running and no request sent |
| `Profile.InfoModal.UserChanged` | src/component/layout/_components/modal/change-my-info.tsx:69-77 | a new user record resets the form from it |
| `Profile.InfoModal.TrashClick` | src/component/layout/_components/modal/change-my-info.tsx:108-126 | the trash click sends nothing while an upload runs, and otherwise sends exactly the avatar deletion request |
| `Profile.InfoModal.AvatarDeleted` | src/component/layout/_components/modal/change-my-info.tsx:118-119 | the record returned by the deletion, having no avatar, empties the avatar field and hides the trash button |
| `Profile.InfoModal.UploadStarted` | src/component/layout/_components/modal/change-my-info.tsx:138-146 | choosing a file starts the upload and requests an upload address |
| `Profile.InfoModal.UploadFinished` | src/component/layout/_components/modal/change-my-info.tsx:139-148 | the avatar field takes the uploaded address with its query stripped, the other fields are kept, and the upload is over |
| `Profile.InfoModal.SubmitClick` | src/component/layout/_components/modal/change-my-info.tsx:44-54 | a submitted form sends exactly `Submit` of the form as the update request |
| `Scenarios.DoubleBackClick` | src/app/recruit/application/page.tsx:204-214 | two back clicks before the timer fires change the step once |
| `Scenarios.ContinueBlocksBackArrow` | src/app/recruit/application/page.tsx:204-206 | a back click after a valid continue on step 7 and before the timer is ignored, and the page settles on step 8 |
| `Scenarios.FinalEditReturnsToSummary` | src/app/recruit/form/_step/17.tsx:134-139 | in final-edit mode a valid answer on step 17 settles on 18, and `recruit:final_edit` is gone |
| `Scenarios.Reload` | src/app/recruit/application/page.tsx:153-184 | a page mounted over a valid page's storage has its step and its answers |
| `Scenarios.BackIntoSkippedStep` | src/app/recruit/form/_step/16.tsx:38-47 | without 'design' and without `recruit:back`, stepping back from 17 re-enters 16, which sends the visitor to 17 again |
| `Scenarios.BackIntoSkippedStepWithFlag` | src/app/recruit/form/_step/16.tsx:38-47 | with `recruit:back` = 'true', the same re-entry lands on 15 and the flag stays in place |
| `Scenarios.TrashDuringUpload` | src/component/layout/_components/modal/change-my-info.tsx:108-153 | a trash click during an upload sends nothing; after the upload the same click sends the deletion |

## Findings

| source | as written | input that shows it | evidently intended | confidence | as-written member | corrected member |
|---|---|---|---|---|---|---|
| src/app/recruit/page.tsx:133-153 | The status line first tests `startOfDay(start) <= now` ("application has ended") and then `now <= endOfDay(end)` ("can apply from {start}"). The buttons need `endOfDay(end) < now < startOfDay(start)`. | Any instant inside the period, such as the start instant of a one-day period: the wizard's guard admits it, but the page says "ended" and shows no apply button. | "Ended" after `endOfDay(end)`, "from {start}" before `startOfDay(start)`, and the apply or logout button in between, which agrees with the wizard's access guard. | high (the guard at src/app/recruit/application/page.tsx:130-138 uses the opposite comparisons); not executed | `Window.OpenPeriodShownAsEnded` | `Window.IntendedStatus` |

`Landing.View` keeps the status as written, `Window.RecruitStatus`, because it describes
the page as it stands. `Window.IntendedStatus` is proved beside it.

### Where the code departs from its evident intent (the model follows the code)

- Final-edit mode is not consumed uniformly. Step 0 reads `recruit:final_edit` and never
  removes it (src/app/recruit/form/_step/0.tsx:145-154). Steps 7 and 17 remove it only on
  a valid continue (7.tsx:102-121, 17.tsx:134-139). Step 16 removes it as soon as it
  renders (16.tsx:36, 48-50).
- The step index is not kept valid by the page: `STEPS[step]` is read unchecked
  (src/app/recruit/application/page.tsx:124). So
  "the step indexes the table" is a precondition of `Settle` and `ShiftStep`, not an
  invariant. The visible table has 17 entries (`APPLICATION_STEPS`), while final-edit
  continues target 18 (`SUMMARY_STEP`). That is why the table length is the wizard's
  `stepCount` parameter.
- The model pairs the application page's back arrow
  (src/app/recruit/application/page.tsx:202-215) with the form's step 16, whose props come
  from the form's own controller (src/app/recruit/form/_step/16.tsx:27). That controller
  is not part of this model, and it may be what raises `recruit:back`. Without the flag, a
  back transition into a skipped step 16 is sent forward again
  (`Scenarios.BackIntoSkippedStep`); with it, the step is skipped backwards
  (`Scenarios.BackIntoSkippedStepWithFlag`).

## Left out

- JSX, styling, framer-motion timings and the progress-bar percentage (floating point)
  are presentation.
- The network calls (`getLatestRecruit`, `checkStudentId`, `updateMyInfo`,
  `deleteMyAvatar`) are parameters or are left out. Their results enter as parameters.
- The zod and react-hook-form validation enters as a boolean outcome and a message.
- The `uploadS3` PUT request, its polling interval and attempt counter, and
  `toast.promise` are network I/O and timers. Only the URL stripping is modelled.
- The JSON codec of `recruit:data` and `recruit:stacks` is a library. Those entries are
  held decoded, and malformed JSON (where `JSON.parse` throws) is not modelled.
- `Application.RestoredStep`: a `recruit:step` that is not an optional minus sign
  followed by digits restores 0. In the page, `Number` would give `NaN`, and the step
  table lookup would then fail. `Number`'s acceptance of spaces, `+`, exponents and hex
  is not modelled.
- `Application.Wizard.RestoreStep`: same restriction as `RestoredStep`.
- `Util.ToDate`: the string parser is a total function to integers. An unparseable date
  (`NaN`) is not modelled.
- `startOfDay`, `endOfDay` and the `Date` getters are abstract. Only `ValidClock` and
  `ValidFields` are assumed of them, and no time zone is modelled.
- React's render and effect scheduling is collapsed into one event per handler or timer.
  On first mount the page briefly writes '0' to `recruit:step` before the restored step
  is rendered. The model keeps only the final write.
- Mounting a step is an event the caller raises (`StepZero.Mount`, `StepSixteen.Mount`,
  a new `StepState`). React would keep a component's state when a transition settles on
  the step already shown. That case is not distinguished.
- The recruitment store's source is not part of this model. `clear()` is recorded as
  called, without what it resets. Step 2 reads the store's `step`, which the model keeps
  apart from the wizard's.
- The controller of the `recruit/form` wizard is not part of this model. Only its summary
  index 18 and the `go` and `setStep` interface are used.
- `StepSixteen.ToggleFlips`: stated for a selected value equal to the item's own value.
  That is an assumption about the command-list library, whose version is not shown; some
  versions hand `onSelect` a lower-cased value. `Toggle` itself keeps the two apart, as
  the handler does.
- `StepSixteen.Mount`: requires `recruit:stacks` to be stored. When it is absent,
  `JSON.parse(null)` gives `null`, and `.includes` on it throws a `TypeError` on the page
  (16.tsx:39). That crash is not modelled.
- Step 7 reads `selfIntroduce.length` without a guard. An undefined value is not modelled
  (`SelfIntroduceCounter` takes a string).
- The toast notifications' timing and the router's navigation are reduced to the
  `toasts` list and the `location` value.
