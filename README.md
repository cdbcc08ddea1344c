# NodeJS Ahmedabad community site: form and page logic in Dafny

This project models the logic inside six React components of the community
website. The markup, styling and animation are not modelled.

- **Event registration.** A three-step wizard.
  - `handleChange` stores a checkbox's state or an input's string under the input's name.
  - `handleSubmit` moves one step on. On step 3 it starts a simulated submission and schedules its completion with `setTimeout`.
  - `handlePrevious` goes one step back.
  - The step-3 summary shows "Not provided" for an empty phone or company.
  - The Google Calendar link turns an ISO date string into its compact form with `.replace(/[-:]/g, '').replace(/\.\d+/g, '')`.
- **Membership.** The application record has a list of areas of interest. Ticking a box appends its value. Unticking removes the first copy of the value, if there is one.
- **FAQ.**
  - Category tabs.
  - An accordion whose open/closed state is a record keyed by `` `${activeCategory}-${index}` ``.
  - An "ask a question" form with a simulated submission.
- **Sponsors.**
  - The colour of a sponsor card's tier badge.
  - The sponsorship inquiry form with a simulated submission.
- **Join.** The contact form with a simulated submission.
- **Hall of fame.** A contributor's profile link `name.toLowerCase().replace(' ', '-')`.

Each component whose state the handlers update is a `class`. Its fields are that
component's `useState` variables, and its methods are the handlers. A
`{...prev, [name]: value}` update becomes a map update. Each `setTimeout`
callback becomes an explicit `CompleteSubmission` method. A ghost counter
`pending` counts callbacks that are scheduled and have not run.

The `Valid()` invariant of each class with a simulated submission (the
registration wizard and the FAQ, sponsor and contact forms) says:

- at most one callback is ever pending;
- a callback is pending exactly while the form is submitting;
- the form is never submitting and submitted (or registration complete) at once.

The wizard's invariant also keeps the step between 1 and 3, and the FAQ
page's keeps the active category one of its tabs. The membership form has no
submission state; its invariant says only that the record holds a list of
interests.

Some handlers have preconditions. These come only from how the page renders:

- a submit button is `disabled` while submitting. In the wizard this binds only
  on step 3: below it the button is an ordinary `type="button"`. At step 2,
  Enter in the dietary-restrictions field, the step's only single-line text
  input, still submits the form while a submission is in flight;
- a form is replaced by its thank-you panel once submitted;
- the Previous button exists only above step 1;
- the interest checkboxes are wired to `handleInterestChange` only.

The code has no validation and no failure or retry path, so the model has none.
A submission always succeeds. The pure parts are functions with reference
definitions and lemmas:

- the date stripping;
- the summary fallback;
- the interest list;
- question keys and toggling;
- tier badges;
- the profile slug.

## Model

| member | source | states |
|---|---|---|
| Forms.Applied | src/components/EventRegistration.tsx:87-96 | After a change event, the record has the event's name as a key. That key holds the checkbox state for a checkbox input and the string value otherwise. Every other key keeps its value. |
| Forms.IndexOf | src/components/Membership.tsx:109 | `indexOf` returns -1 exactly when the value is absent. Otherwise it returns a position holding the value with no copy in front of it. |
| Forms.FirstAt | src/components/HallOfFame.tsx:208 | A position holding the character with none in front of it is the one `indexOf` finds, as `replace` with a string pattern uses. |
| EventRegistration.RegistrationForm.constructor | src/components/EventRegistration.tsx:72-84 | The wizard starts at step 1, not submitting and not complete. It has seven empty text fields and `agreeToTerms` false. |
| EventRegistration.RegistrationForm.HandleChange | src/components/EventRegistration.tsx:87-96 | The record is updated as `Applied` describes. Step and submission state are unchanged and the invariant holds. |
| EventRegistration.RegistrationForm.HandleSubmit | src/components/EventRegistration.tsx:98-113 | Below step 3 it advances one step and schedules nothing. On step 3 it stays there and starts submitting with exactly one completion pending. The data is untouched. Below step 3 it advances even while a submission is in flight, and leaves that submission as it is. Its precondition excludes only a submit on step 3 while submitting, when the submit button is disabled (lines 459 and 465), and a submit after completion, when the form is hidden (line 271). |
| EventRegistration.RegistrationForm.CompleteSubmission | src/components/EventRegistration.tsx:109-112 | The timer callback ends the submission and marks the registration complete. It keeps the data and the step. |
| EventRegistration.RegistrationForm.HandlePrevious | src/components/EventRegistration.tsx:115-117 | Goes back exactly one step, and only from above step 1 (line 450). Nothing else changes. |
| EventRegistration.RetreatThenAdvance | src/components/EventRegistration.tsx:98-117 | Previous followed by Next returns to the same step with the same data. This holds whether or not a submission is in flight, and it neither cancels nor repeats that submission. |
| EventRegistration.CompleteAfterStepBack | src/components/EventRegistration.tsx:449-465 | Previous is not disabled while submitting, so a registration can complete while the wizard shows step 2. |
| EventRegistration.AdvanceWhileSubmitting | src/components/EventRegistration.tsx:98-104 | After Previous during the final submission, a submit from step 2 returns to step 3. The same submission is still in flight and no second completion is scheduled. |
| EventRegistration.Truthy | src/components/EventRegistration.tsx:421-422 | JavaScript truthiness of a stored value, which the summary's logical or tests: a non-empty string, `true`, or any list. |
| EventRegistration.Rendered | src/components/EventRegistration.tsx:421-422 | What React renders for a stored value: the string itself, nothing for a boolean, the concatenation of a list. |
| EventRegistration.SummaryLine | src/components/EventRegistration.tsx:421-422 | A non-empty text value is shown as it is. A missing or empty value is shown as "Not provided". |
| EventRegistration.SummaryAfterTyping | src/components/EventRegistration.tsx:421-422 | After typing into phone or company, the summary shows the typed text, or "Not provided" if it was empty. |
| EventRegistration.SummaryOfFreshForm | src/components/EventRegistration.tsx:72-81 | An untouched form summarises phone and company as "Not provided". |
| EventRegistration.SubsequenceOfLonger | src/components/EventRegistration.tsx:127 | Adding characters in front of a string keeps every subsequence of it a subsequence. |
| EventRegistration.RemoveSeparators | src/components/EventRegistration.tsx:127 | `replace(/[-:]/g, '')` leaves no `-` or `:` and never lengthens the string. |
| EventRegistration.RemoveSeparatorsKeepsOrder | src/components/EventRegistration.tsx:127 | The result of removing separators is a subsequence of the input. |
| EventRegistration.RemoveSeparatorsKeepsOthers | src/components/EventRegistration.tsx:127 | Every character other than `-` and `:` occurs in the result as often as in the input. |
| EventRegistration.RemoveSeparatorsAppend | src/components/EventRegistration.tsx:127 | Removing separators distributes over concatenation. |
| EventRegistration.RemoveSeparatorsDigits | src/components/EventRegistration.tsx:127 | A run of digits has nothing to remove. |
| EventRegistration.DropDigits | src/components/EventRegistration.tsx:127 | The greedy `\d+` leaves a string no longer than its input that does not start with a digit. |
| EventRegistration.DropDigitsSplit | src/components/EventRegistration.tsx:127 | What `\d+` consumes is a run of digits directly in front of what it keeps. |
| EventRegistration.RemoveFractions | src/components/EventRegistration.tsx:127 | `replace(/\.\d+/g, '')` leaves no `.` followed by a digit. A result of an input not starting with a digit does not start with one either. |
| EventRegistration.RemoveFractionsKeepsOrder | src/components/EventRegistration.tsx:127 | The result of removing fractions is a subsequence of the input. |
| EventRegistration.RemoveFractionsKeepsOthers | src/components/EventRegistration.tsx:127 | Every character other than `.` and the digits occurs in the result as often as in the input. |
| EventRegistration.FractionRunHoldsNoOther | src/components/EventRegistration.tsx:127 | A removed `.digits` run holds no other character. |
| EventRegistration.DigitsHoldNoOther | src/components/EventRegistration.tsx:127 | A run of digits holds no non-digit. |
| EventRegistration.RemoveFractionsPrefix | src/components/EventRegistration.tsx:127 | A prefix without `.` passes through fraction removal unchanged. |
| EventRegistration.DropDigitsOfRun | src/components/EventRegistration.tsx:127 | `\d+` consumes exactly a maximal run of digits. |
| EventRegistration.CalendarDate | src/components/EventRegistration.tsx:127 | The two chained replacements leave no `-` or `:` and no `.` followed by a digit, and what they leave is a subsequence of the ISO string. |
| EventRegistration.CalendarDateKeepsOthers | src/components/EventRegistration.tsx:127 | Every character other than `-`, `:`, `.` and the digits occurs in the link's date as often as in the ISO string. |
| EventRegistration.SubsequenceTransitive | src/components/EventRegistration.tsx:127 | A subsequence of a subsequence is a subsequence, so both replacements together keep order. |
| EventRegistration.SubsequenceNoNewChars | src/components/EventRegistration.tsx:127 | A subsequence introduces no character the input lacks. |
| EventRegistration.CalendarDateOfIsoString | src/components/EventRegistration.tsx:120-127 | Any `toISOString` shape `YYYY-MM-DDTHH:mm:ss.sssZ` becomes `YYYYMMDDTHHmmssZ`, which is the form Google Calendar expects. |
| EventRegistration.DigitsOrT | src/components/EventRegistration.tsx:127 | The stripped date and time parts hold no `.`. |
| EventRegistration.SeparatorsOfIsoString | src/components/EventRegistration.tsx:127 | Removing separators from an ISO string leaves its date digits, `T`, time digits, `.` and milliseconds, then `Z`. |
| EventRegistration.DatePartWithoutSeparators | src/components/EventRegistration.tsx:127 | The date part `YYYY-MM-DDT` of an ISO string becomes `YYYYMMDDT`. |
| EventRegistration.TimePartWithoutSeparators | src/components/EventRegistration.tsx:127 | The time part `HH:mm:ss.sssZ` of an ISO string becomes `HHmmss.sssZ`. |
| EventRegistration.DateWithoutSeparators | src/components/EventRegistration.tsx:127 | Removing separators between three digit groups joins the groups. |
| EventRegistration.WorkshopStartDate | src/components/EventRegistration.tsx:10 | The event's start `2025-07-15T18:00:00` in UTC+05:30, as the ISO string `2025-07-15T12:30:00.000Z`, is written `20250715T123000Z` in the link. |
| Membership.WithoutFirst | src/components/Membership.tsx:108-113 | The reference untick removes the first copy of the value. The list is one shorter when the value is present and the same length otherwise. |
| Membership.InterestsAfter | src/components/Membership.tsx:104-115 | The list a tick pushes onto or an untick splices from. Its properties are the lemmas below. |
| Membership.SpliceIsWithoutFirst | src/components/Membership.tsx:109-112 | `splice(indexOf(v), 1)` on a list holding `v` equals the reference removal of the first `v`. |
| Membership.UntickAbsent | src/components/Membership.tsx:109-112 | Unticking a value that is not in the list leaves the list unchanged. |
| Membership.UntickPresent | src/components/Membership.tsx:109-112 | Unticking a present value makes the list one shorter, removes one copy of that value and keeps every other value's count. Elements in front of the first copy keep their places. |
| Membership.TickAppends | src/components/Membership.tsx:106-107 | Ticking appends the value at the end without de-duplicating, so the value gains one copy. |
| Membership.TickThenUntick | src/components/Membership.tsx:102-116 | Ticking and then unticking a value not yet chosen restores the list exactly. |
| Membership.MembershipForm.constructor | src/components/Membership.tsx:80-89 | The application starts with the general tier, no interests, the code of conduct unaccepted and the other fields empty. |
| Membership.MembershipForm.HandleChange | src/components/Membership.tsx:91-100 | The record is updated as `Applied` describes and the interest list is untouched. Input names other than "interests" come only from `handleChange`'s inputs (line 320). |
| Membership.MembershipForm.HandleInterestChange | src/components/Membership.tsx:102-116 | The interest list becomes the reference tick or untick of the old list. Every other key is unchanged. |
| Faq.Decimal | src/components/FAQ.tsx:186 | A template literal writes an index as a non-empty run of digits, without a leading zero above 0. |
| Faq.ParseDecimalOfDecimal | src/components/FAQ.tsx:186 | Reading the digits back gives the index. |
| Faq.DecimalInjective | src/components/FAQ.tsx:186 | Two indexes are written alike exactly when they are equal. |
| Faq.QuestionId | src/components/FAQ.tsx:186 | A key is the category, then `-`, then a non-empty run of digits. |
| Faq.DashAfterCategory | src/components/FAQ.tsx:186 | In a key built from a category without `-`, the first `-` follows the category. |
| Faq.QuestionIdInjective | src/components/FAQ.tsx:186 | For categories without `-`, two keys are equal exactly when category and index are both equal. |
| Faq.CategoriesHaveNoDash | src/components/FAQ.tsx:5-106 | No category id of the page contains `-`. |
| Faq.PageKeysDistinct | src/components/FAQ.tsx:5-106 | Two questions on the page share a key exactly when they are the same question. |
| Faq.IsOpen | src/components/FAQ.tsx:196-200 | A question is shown open exactly when its key holds `true`; a missing key reads as `undefined` and shows closed. |
| Faq.Toggled | src/components/FAQ.tsx:119-124 | `toggleQuestion` opens a closed or unset question and closes an open one. It adds only that key and leaves every other key alone. |
| Faq.ToggleTwice | src/components/FAQ.tsx:119-124 | Toggling twice restores the question's state, and restores the record when the key was already present. |
| Faq.ToggleIsLocal | src/components/FAQ.tsx:119-124 | Toggling one question does not change whether any other question is open. |
| Faq.FaqPage.constructor | src/components/FAQ.tsx:109-117 | The page starts on "general" with no question open, an empty form and nothing submitted. |
| Faq.FaqPage.SelectCategory | src/components/FAQ.tsx:163 | A tab changes only the active category and keeps every open/closed state. |
| Faq.FaqPage.AnswerShown | src/components/FAQ.tsx:186-200 | Question `index` of the active category shows its answer exactly when its key is open. |
| Faq.FaqPage.ToggleQuestion | src/components/FAQ.tsx:119-124 | The record becomes `Toggled` of the old record. Nothing else changes. |
| Faq.FaqPage.ClickQuestion | src/components/FAQ.tsx:186-200 | Clicking question `index` flips whether that answer shows. Every other answer of the category stays as it was. The record becomes `Toggled` at that question's key, so other categories' questions keep their state too. The category, the form and the submission state are unchanged. |
| Faq.FaqPage.HandleChange | src/components/FAQ.tsx:126-129 | Only the named field changes. |
| Faq.FaqPage.HandleSubmit | src/components/FAQ.tsx:131-145 | Starts submitting with exactly one completion pending and keeps the data. Its precondition reflects the disabled button (line 292) and the hidden form (line 228). |
| Faq.FaqPage.CompleteSubmission | src/components/FAQ.tsx:136-144 | The timer callback ends the submission, shows the thank-you panel and clears the three fields. |
| Faq.FaqPage.AskAnother | src/components/FAQ.tsx:240 | "Ask Another Question" changes only `isSubmitted` back to false. |
| Sponsors.TierBadge | src/components/Sponsors.tsx:210-215 | A card's badge is purple exactly for "Platinum", yellow exactly for "Gold" and gray exactly for "Silver". Every other tier gets amber. |
| Sponsors.CurrentSponsorBadges | src/components/Sponsors.tsx:6-55 | The six current sponsors show purple, yellow, yellow, gray, gray and amber (Bronze) badges. |
| Sponsors.InquiryForm.constructor | src/components/Sponsors.tsx:119-128 | The inquiry starts with six empty fields and nothing submitted. |
| Sponsors.InquiryForm.HandleChange | src/components/Sponsors.tsx:130-133 | Only the named field changes. |
| Sponsors.InquiryForm.HandleSubmit | src/components/Sponsors.tsx:135-152 | Starts submitting with exactly one completion pending and keeps the data. Its precondition reflects the disabled button (line 409) and the hidden form (line 302). |
| Sponsors.InquiryForm.CompleteSubmission | src/components/Sponsors.tsx:140-151 | The timer callback ends the submission, shows the thank-you panel and clears all six fields. |
| Sponsors.InquiryForm.SendAnother | src/components/Sponsors.tsx:314 | "Send Another Inquiry" changes only `isSubmitted` back to false. |
| Sponsors.InquiryRound | src/components/Sponsors.tsx:135-151 | Submit, completion and "Send Another Inquiry" bring the form back blank and not submitted, whatever was typed. |
| Join.ContactForm.constructor | src/components/Join.tsx:7-14 | The message starts with four empty fields and nothing submitted. |
| Join.ContactForm.HandleChange | src/components/Join.tsx:21-24 | Only the named field changes. |
| Join.ContactForm.HandleSubmit | src/components/Join.tsx:26-41 | Starts submitting with exactly one completion pending and keeps the data. Its precondition reflects the disabled button (line 162) and the hidden form (line 80). |
| Join.ContactForm.CompleteSubmission | src/components/Join.tsx:31-40 | The timer callback ends the submission, shows the thank-you panel and clears all four fields. |
| Join.ContactForm.SendAnother | src/components/Join.tsx:92 | "Send Another Message" changes only `isSubmitted` back to false. |
| HallOfFame.ToLower | src/components/HallOfFame.tsx:208 | Lowercasing keeps the length and lowers each character in place. |
| HallOfFame.SpacesStayPut | src/components/HallOfFame.tsx:208 | The first space of the lowered name is the first space of the name. |
| HallOfFame.ReplaceFirst | src/components/HallOfFame.tsx:208 | `replace` with a one-character string pattern keeps the length and puts the replacement at the first match only. A string without a match is returned unchanged. |
| HallOfFame.ProfileSlug | src/components/HallOfFame.tsx:208 | The slug is as long as the name. It has `-` at the name's first space and the lowered character everywhere else. |
| HallOfFame.LaterSpacesKept | src/components/HallOfFame.tsx:208 | `replace` with a string pattern replaces only the first space, so later spaces stay spaces. |
| HallOfFame.NoSpaceSlug | src/components/HallOfFame.tsx:208 | A name without a space gives its lower-case form. |
| HallOfFame.SlugHasNoUpper | src/components/HallOfFame.tsx:208 | No ASCII capital remains in a slug. |
| HallOfFame.SlugFromPoints | src/components/HallOfFame.tsx:208 | The pointwise description of a slug determines it as the lowered first part, `-` and the lowered rest. |
| HallOfFame.SlugOfParts | src/components/HallOfFame.tsx:208 | For `first + " " + rest` with no space in `first`, the slug is `ToLower(first) + "-" + ToLower(rest)`. |

## Left out

- Button wiring: below step 3 the Next button is `type="button"` with no `onClick` (src/components/EventRegistration.tsx:459). `handleSubmit` is reached there only by implicit submission, which step 1's four single-line inputs (lines 307-352) prevent. `HandleSubmit` models the handler at every step.
- Rendering: JSX markup, CSS classes, `framer-motion` animations and `useInView`. The rendering conditions that limit which handlers can run are kept as preconditions, except the button wiring above.
- Timing: the 1500 ms delay of each `setTimeout`. The callback is the separate `CompleteSubmission` method, which any later moment may call.
- `Date`, `toISOString` and the time zone: the calendar link is modelled from the ISO string onwards. `WorkshopStartDate` assumes the visitor's clock is at UTC+05:30.
- `encodeURIComponent`, the other fields of the Google, Outlook and ICS links, and the calendar modal (`showCalendarModal`).
- Membership's `handleSubmit`: it only writes to the console and shows an alert, both of which are I/O.
- `event.preventDefault()` and the other browser event plumbing. A change event is reduced to its name, value, type and checked state.
- HallOfFame.ToLower: lowercases ASCII `A`-`Z` only. JavaScript's `toLowerCase` also maps non-ASCII capitals. That would need the Unicode case tables, which are not modelled.
- Navigation links, the contributor and resource data, and the other components of the site (About, Events, Hero, Legal, Members, Navbar, Resources, the page index) are not part of this model.
