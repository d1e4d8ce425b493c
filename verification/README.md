# theo-manager core, modelled in Dafny

theo-manager is a congregation-management app built with Dioxus. Its logic lives in closures
inside its UI components. This project lifts that logic into pure Dafny functions whose
captured signals become parameters, and proves what the screens promise. Five clusters are
covered.

- **Field-service groups** (`field_service_groups.dfy`, `natural_sort.dfy`). Covers accent
  folding, the natural sort key, and group search. Also covers the "already assigned
  elsewhere" lists for members, supervisors and auxiliaries, the group form, and the
  save-time member merge.
- **Monthly reports** (`field_service_reports.dfy`, `publisher_reports.dfy`, `dates.dfy`).
  - The previous-month window, its hours and credits totals, and the "preached" badge.
  - The publisher filters, including group membership, and the report rows.
  - Matching reports to a publisher, newest-first order, and the month/year heading.
  - The form's pickers and selects, and the `preached` derivation on save.
- **User list** (`users_view.dfy`). Covers the conjunctive filters, name formatting,
  pagination, selection and select-all, and the user form's load and save.
- **Forms** (`user_creation.dfy`, `congregation_step.dfy`, `congregation_settings.dfy`).
  Covers the administrator's ordered validation chain, and the congregation step's time checks
  and select decoders. Also covers the settings page's HH:MM parse with fallbacks and its
  select encode/decode pairs.
- **Navigation and onboarding** (`navigation.dfy`, `landing.dfy`, `stepper.dfy`).
  - The section parent table, the back button, the menu highlight, and the section screens.
  - The four-step wizard with its save chain.
  - The stepper's circles and connectors.

Shared pieces:

- `common.dfy` holds Option and Result.
- `text.dfy` holds Rust's `trim` and the substring tests.
- `numbers.dfy` holds decimal text and Rust's integer `parse`.
- `records.dfy` holds the record shapes, taken from how the views use them.
- `seqs.dfy` holds filtering, toggling and sorting.
- `paging.dfy` holds the page arithmetic shared by the three lists.

A SurrealDB record id is a pair `Ref(table, local)`:

- `KeyText` prints the key the way SurrealDB does. A plain identifier (letters, digits, '_') is printed bare; any other key is wrapped in `⟨` and `⟩`.
- `ThingString` is the record's `table:key` text, with the key printed by `KeyText`.
- `ParseKey` reads a printed key back: a plain identifier, or a bracketed key.
- `TrailingId` is the part of `ThingString` after its last `':'`.

Every store reply, the clock and the browser APIs are parameters.

## Model

| member | source | states |
|---|---|---|
| NaturalSort.Normalize | src/views/field_service_groups.rs:8-29 | folding keeps the length of the name |
| NaturalSort.NormalizeChars | src/views/field_service_groups.rs:8-29 | every accented letter of the table becomes its plain lower-case letter; every other character is only lower-cased; the result holds folded characters only |
| NaturalSort.NormalizeIdempotent | src/views/field_service_groups.rs:8-29 | folding an already folded name changes nothing |
| NaturalSort.NormalizeIgnoresCase | src/views/field_service_groups.rs:8-29 | lower-casing before folding makes no difference, so search ignores case |
| NaturalSort.NormalizeAppend | src/views/field_service_groups.rs:8-29 | folding works character by character, so it distributes over concatenation |
| NaturalSort.NormalizeExamples | src/views/field_service_groups.rs:12-24 | "São Paulo" folds to "sao paulo" and "ÀÉÎ" to "aei" |
| NaturalSort.NaturalSortKey | src/views/field_service_groups.rs:32-67 | the loop over the characters computes the run-based key: maximal digit and non-digit runs, with digit runs zero-padded and text runs lower-cased |
| NaturalSort.RunsMaximal | src/views/field_service_groups.rs:37-64 | the runs are non-empty and alternate between digits and non-digits, and together they spell the name |
| NaturalSort.KeyShape | src/views/field_service_groups.rs:32-67 | the key is empty only for the empty name; every token is non-empty; neighbouring tokens alternate kinds; a token is marked numeric exactly when all its characters are ASCII digits |
| NaturalSort.KeyTokensFromRuns | src/views/field_service_groups.rs:47-50 | a text token is its run lower-cased; a digit token is its run padded to width 10 |
| NaturalSort.PadDigits | src/views/field_service_groups.rs:47-48 | runs of up to 10 digits become exactly 10 characters ending in the run; longer runs are kept |
| NaturalSort.PaddedOrderIsNumeric | src/views/field_service_groups.rs:47-48 | for runs of at most 10 digits, the order of the padded texts is numeric order |
| NaturalSort.KeyLeTotal | src/views/field_service_groups.rs:245 | the tuple-vector order on keys is total and antisymmetric, so the keys can sort any list |
| NaturalSort.TextBeforeDigit | src/views/field_service_groups.rs:32 | at the first differing position, a text token sorts before a digit token |
| NaturalSort.PrefixFirst | src/views/field_service_groups.rs:245 | a key that is a proper prefix of another sorts first |
| NaturalSort.NumberedNamesOrder | src/views/field_service_groups.rs:32-67 | names with the same text followed by numbers of up to 10 digits sort by the numbers' values |
| NaturalSort.GroupTwoBeforeGroupTen | src/views/field_service_groups.rs:244-245 | "Group 2" sorts strictly before "Group 10" |
| FieldServiceGroups.ApplySearch | src/views/field_service_groups.rs:165-248 | a group is listed iff the folded query is empty or it folds into the group's name or a resolved leader's or member's name; every group is kept for an empty query; the result is sorted by natural key and takes nothing new |
| FieldServiceGroups.SearchNarrows | src/views/field_service_groups.rs:165-248 | typing more characters never brings a group back |
| FieldServiceGroups.SearchFindsSupervisor | src/views/field_service_groups.rs:180-195 | a group whose supervisor resolves to a user matching the query is found |
| FieldServiceGroups.AccentInsensitiveExample | src/views/field_service_groups.rs:165-180 | the query "jose" finds "José Silva" |
| FieldServiceGroups.UserName | src/views/field_service_groups.rs:299-320 | "Not assigned" for no reference or an unresolved one, otherwise the first user with that trailing id, as "first last" |
| FieldServiceGroups.ResolvedNames | src/views/field_service_groups.rs:327-350 | the names of exactly the resolvable members, with unresolved ones skipped; when every member resolves, one name per member in member order |
| FieldServiceGroups.ResolvedNamesInOrder | src/views/field_service_groups.rs:327-350 | each member gives its own name or nothing, and the names of a joined list are those of its parts in order: one name per resolvable member, in member order |
| FieldServiceGroups.SortedMemberNames | src/views/field_service_groups.rs:327-356 | the resolved names, sorted by lower-cased text, as a permutation |
| FieldServiceGroups.AssignedMembers | src/views/field_service_groups.rs:637-662 | an id is listed iff some group other than the one being edited has a member whose printed key is that id |
| FieldServiceGroups.MemberKeys | src/views/field_service_groups.rs:650-653 | one printed key per member, in member order |
| FieldServiceGroups.AssignedLeaders | src/views/field_service_groups.rs:664-710 | an id is listed iff some group other than the one being edited has a supervisor (or auxiliary) with that trailing id, with at most one id per group |
| FieldServiceGroups.LeaderOption | src/views/field_service_groups.rs:845-865 | a user is offered as a leader iff the user is male, has an id, and does not lead in that role elsewhere; the offered value is the user's trailing id |
| FieldServiceGroups.EditedGroupKeepsItsLeader | src/views/field_service_groups.rs:664-686 | a brother whom no other group has as leader in the role is offered while a group is edited, even when that group names them; on a new group a group led by them hides them |
| FieldServiceGroups.LoadForm | src/views/field_service_groups.rs:600-630 | a new group opens empty; an edited group opens with its name and the trailing ids of its leaders and members |
| FieldServiceGroups.AddIfAbsent | src/views/field_service_groups.rs:730-736 | a non-empty absent id is appended and nothing else changes, so no duplicate appears |
| FieldServiceGroups.ChooseLeader | src/views/field_service_groups.rs:831-840 | the pick becomes the supervisor (auxiliary) and the other leader is kept; the picked id is ticked, no other member is added or removed, and no duplicate appears |
| FieldServiceGroups.ClickMember | src/views/field_service_groups.rs:712-719 | a ticked member is removed; an unticked one is added unless it is assigned elsewhere, and then nothing changes |
| FieldServiceGroups.MemberRowOf | src/views/field_service_groups.rs:940-965 | a row shows iff the user has an id and matches the member search; it is checked iff selected, and disabled iff assigned elsewhere and not selected |
| FieldServiceGroups.ClicksNeverTakeAssigned | src/views/field_service_groups.rs:950-963 | no sequence of clicks selects a user assigned elsewhere |
| FieldServiceGroups.SaveEnabledNeedsName | src/views/field_service_groups.rs:1005 | Save is enabled iff nothing is saving and the name has a non-whitespace character |
| FieldServiceGroups.ParseUserRef | src/views/field_service_groups.rs:739-741 | `user:<id>` is accepted iff the id is a plain identifier or a bracketed key; the reference is to that user, with the brackets removed |
| FieldServiceGroups.ParseUserRefTrailing | src/views/field_service_groups.rs:600-630 | the trailing id of a parsed reference parses back to the same reference, and is the id itself when the id is printed as SurrealDB prints it |
| FieldServiceGroups.UserRefs | src/views/field_service_groups.rs:739-741 | every parseable id becomes its `user` reference and unparseable ones are dropped; when all parse, the references are pointwise; printed ids without duplicates give references without duplicates |
| FieldServiceGroups.SavedIds | src/views/field_service_groups.rs:723-736 | the merged list holds exactly the ticked ids and the non-empty supervisor and auxiliary ids, adds no duplicate, and keeps every id printed |
| FieldServiceGroups.SavedMembers | src/views/field_service_groups.rs:723-741 | the saved members are exactly the `user` references parsed from the ticked, supervisor and auxiliary ids, without duplicates when the ticked ids have none and all are printed keys |
| FieldServiceGroups.BuildGroup | src/views/field_service_groups.rs:723-784 | a create has no id; an edit keeps the group's id or fails with "No group to update" or "Group has no ID"; the name is the form's; a parseable supervisor (auxiliary) id becomes the supervisor (auxiliary) and is among the members, and an unparseable or empty one gives none; the members are exactly the `user` references parsed from the ticked ids, the supervisor and the auxiliary, with no duplicates when the ticked ids have none and every id is a printed key |
| FieldServiceGroups.EditRoundTrip | src/views/field_service_groups.rs:600-630 | opening a representable group and saving it unchanged stores the same group |
| FieldServiceGroups.LoadedMembersSaveBack | src/views/field_service_groups.rs:600-630 | the member ids a representable group opens with save back as its own members, in order |
| FieldServiceGroups.LoadedFormIsPrinted | src/views/field_service_groups.rs:600-630 | every id a representable group opens with is a key as SurrealDB prints it |
| FieldServiceGroups.MembersRoundTrip | src/views/field_service_groups.rs:600-630 | each loaded member id is the member's printed key, and the ids parse back to the members |
| FieldServiceGroups.LeaderRoundTrip | src/views/field_service_groups.rs:600-630 | a loaded leader id is the leader's printed key and parses back to the same leader |
| Dates.FromYmd | src/views/field_service_reports.rs:12-18 | a date exists iff the year is in chrono's range −262144 to 262143 and the month and day are valid, leap years included |
| Dates.Pred | src/views/field_service_reports.rs:22-26 | the day before a valid date is valid, earlier, and no valid date lies between them |
| FieldServiceReports.PreviousMonthStart | src/views/field_service_reports.rs:9-20 | the first of the previous month, which is December of the previous year in January |
| FieldServiceReports.PreviousMonthBounds | src/views/field_service_reports.rs:9-27 | start and end fall in the same month, start is before end, and end is that month's last day |
| FieldServiceReports.PreviousMonthWindow | src/views/field_service_reports.rs:29-53 | a date is in the window iff it falls in the previous calendar month |
| FieldServiceReports.TotalAppend | src/views/field_service_reports.rs:38-46 | the sum over a concatenation is the sum of the sums |
| FieldServiceReports.TotalPositive | src/views/field_service_reports.rs:38-46 | with non-negative amounts the total is non-negative, and positive iff some counted report has a positive amount |
| FieldServiceReports.PreviousMonthTotals | src/views/field_service_reports.rs:29-53 | a store error gives (0, 0); otherwise the loop sums hours and credits, missing ones as 0, over the reports of that local id inside the window |
| FieldServiceReports.DidPreachPreviousMonth | src/views/field_service_reports.rs:55-78 | a store error gives false; otherwise true iff some counted report has `preached` set |
| FieldServiceReports.PreviousMonthBadge | src/views/field_service_reports.rs:486-496 | pioneers see their total followed by " hours"; everyone else sees "Preached" or "Not preached" |
| FieldServiceReports.BadgeMeaning | src/views/field_service_reports.rs:486-496 | a pioneer's badge is green iff some report in the window has a positive amount; anyone else's iff some report there is marked preached |
| FieldServiceReports.TypeLabelsDistinct | src/views/field_service_reports.rs:284-295 | each publisher type has its own label |
| FieldServiceReports.Publishers | src/views/field_service_reports.rs:113-115 | exactly the users with a publisher type, with multiplicities kept |
| FieldServiceReports.ApplyFilters | src/views/field_service_reports.rs:145-235 | a user is kept iff the name, type and group filters pass, with multiplicity kept; the list is sorted by name order when a congregation is loaded |
| FieldServiceReports.ClearedFiltersListEveryone | src/views/field_service_reports.rs:145-235 | with no filter set, every publisher is listed |
| FieldServiceReports.MoreFiltersFewerUsers | src/views/field_service_reports.rs:145-235 | a stricter filter never lists more |
| FieldServiceReports.GroupFilterListsSupervisor | src/views/field_service_reports.rs:165-213 | picking a group lists its supervisor |
| FieldServiceReports.GroupFilterFormsAgree | src/views/field_service_reports.rs:165-213 | filtering by `table:key` or by the printed key alone selects the same users |
| FieldServiceReports.ChooseType | src/views/field_service_reports.rs:360-380 | "all" clears the type filter; "baptized", "unbaptized", "regular_pioneer", "special_pioneer" and "aux_pioneer" set the baptized publisher, unbaptized publisher, regular, special and continuous auxiliary pioneer types; anything else keeps the filter |
| FieldServiceReports.TypeSelectRoundTrip | src/views/field_service_reports.rs:360-381 | every offered option selects its own type whatever was selected before, and only students have no option |
| FieldServiceReports.ChooseTypeOffers | src/views/field_service_reports.rs:360-380 | the select never offers students |
| FieldServiceReports.ChooseGroup | src/views/field_service_reports.rs:390-410 | "all" clears the group filter and any other value becomes it |
| FieldServiceReports.GroupFilterOptions | src/views/field_service_reports.rs:400-412 | as many options as groups with an id, one for each such group, valued with the group's `table:id` text and labelled with its name, sorted by lower-cased label |
| FieldServiceReports.PickedOptionListsItsGroup | src/views/field_service_reports.rs:165-205 | picking a group's option lists exactly the users who are its supervisor, auxiliary or members by trailing id, when no other group shares its trailing id |
| FieldServiceReports.ShownRows | src/views/field_service_reports.rs:244-249 | 20 rows on a full page, the remainder on the last page, none past it; row i is filtered user page·20+i |
| FieldServiceReports.PagesShowEveryRow | src/views/field_service_reports.rs:244-249 | walking the pages shows every listed user once, in order |
| FieldServiceReports.RowTarget | src/views/field_service_reports.rs:452-468 | a row opens `field_service_reports/` followed by the publisher's id |
| FieldServiceReports.GroupNameAsWrittenNeverFinds | src/views/field_service_reports.rs:264-281 | as written, the group column shows the placeholder "—" for every group key without ':' |
| FieldServiceReports.GroupName | src/views/field_service_reports.rs:264-281 | corrected: the name of the first group whose id is the user's group, otherwise the placeholder "—" |
| FieldServiceReports.GroupNameFindsGroup | src/views/field_service_reports.rs:264-281 | corrected: the user's own group's name is shown |
| PublisherReports.ReportsOf | src/views/publisher_reports.rs:107-117 | a report is shown iff its publisher's printed key is the publisher id or ends with ':' and that id, with multiplicities kept |
| PublisherReports.BelongsToPlainLocal | src/views/publisher_reports.rs:109-113 | for a local id without ':', matching is equality with the printed key |
| PublisherReports.BelongsToPlainId | src/views/publisher_reports.rs:109-113 | for a page id that is a plain identifier, a report matches iff its publisher's local id is that id; the suffix test never fires |
| PublisherReports.NewestFirst | src/views/publisher_reports.rs:134-138 | the reports, permuted, with dates never increasing |
| PublisherReports.NewestComesFirst | src/views/publisher_reports.rs:134-138 | no report is newer than the first one |
| PublisherReports.ShownReports | src/views/publisher_reports.rs:141-146 | 10 reports on a full page, the remainder on the last page, none past it; entry i is report page·10+i |
| PublisherReports.PagesShowEveryReport | src/views/publisher_reports.rs:141-146 | walking the pages shows every report once, in order |
| PublisherReports.MonthName | src/views/publisher_reports.rs:15-31 | a month name exists exactly for months 1 to 12 and holds no space |
| PublisherReports.MonthNumberOfName | src/views/publisher_reports.rs:15-31 | each month's name identifies the month |
| PublisherReports.MonthYearRoundTrip | src/views/publisher_reports.rs:15-31 | the heading "Month year" can be read back into the same month and year |
| PublisherReports.MonthYearHeadingsDistinct | src/views/publisher_reports.rs:15-31 | different months get different headings |
| PublisherReports.NewForm | src/views/publisher_reports.rs:173-183 | a new report opens on today, unticked, with no commitment and empty fields |
| PublisherReports.EditForm | src/views/publisher_reports.rs:186-196 | an edited report opens with its date, flag and commitment, and shows missing numbers as empty text |
| PublisherReports.ChangeMonth | src/views/publisher_reports.rs:500-512 | a value that parses as a month 1–12 moves the date to the first of that month in the same year (when the year is in chrono's range); any other value leaves the date alone |
| PublisherReports.ChangeYear | src/views/publisher_reports.rs:534-546 | an i32 year in chrono's range moves the date to the first of the same month in that year; an i32 outside that range, or text that is not an i32, leaves the date alone |
| PublisherReports.MonthAndYearPickers | src/views/publisher_reports.rs:500-546 | each offered month moves the date to the first of that month; a typed i32 year lands on the first of the month in that year when chrono can hold it, and otherwise leaves the date alone |
| PublisherReports.CommitmentSelectRoundTrip | src/views/publisher_reports.rs:600-617 | each commitment, or none, reads back from its select value |
| PublisherReports.DerivePreached | src/views/publisher_reports.rs:210-229 | for a pioneer, preached iff hours plus credits, missing as 0, are positive |
| PublisherReports.TickedFlagDecidesIffNotComputed | src/views/publisher_reports.rs:210-229 | the manual tick decides exactly for students, typeless or unloaded publishers, and publishers without a commitment |
| PublisherReports.PublisherCreditsIgnored | src/views/publisher_reports.rs:218-224 | for a publisher with a commitment, only positive hours count and credits never do |
| PublisherReports.SaveReport | src/views/publisher_reports.rs:199-255 | a new report is created; an edit updates its own id, or does nothing when the report has none; text that is not an i16 and empty notes are stored as nothing |
| PublisherReports.PioneerPreachedIffTotal | src/views/publisher_reports.rs:210-216 | a pioneer's saved report is marked preached iff its total is positive |
| PublisherReports.EditRoundTrip | src/views/publisher_reports.rs:186-255 | opening a report and saving it unchanged writes the same report |
| UsersView.FilterUsers | src/views/users.rs:70-120 | a user is kept iff the name, gender, appointment and type filters all pass, with multiplicities kept |
| UsersView.ClearedFiltersKeepAll | src/views/users.rs:70-120 | with every filter cleared, the list is the loaded list |
| UsersView.SearchIgnoresQueryCase | src/views/users.rs:71-79 | the name filter ignores the query's case |
| UsersView.UnsetValuesNeverMatch | src/views/users.rs:82-115 | a user with no appointment or type never passes a set filter for it |
| UsersView.ChooseGender | src/views/users.rs:345-360 | "male" and "female" set the filter, "all" clears it, and anything else keeps it |
| UsersView.AppointmentSelectRoundTrip | src/views/users.rs:1262-1266 | each appointment reads back from its select value |
| UsersView.ChooseAppointment | src/views/users.rs:365-382 | "all" clears the filter, an appointment's value sets it, and anything else keeps it |
| UsersView.TypeSelectRoundTrip | src/views/users.rs:1210-1218 | each type reads back from its select value |
| UsersView.ChooseType | src/views/users.rs:390-405 | "all" clears the filter, a type's value sets it, and anything else keeps it |
| UsersView.Refilter | src/views/users.rs:118-122 | re-filtering returns to the first page and keeps the ticks |
| UsersView.RefilterShowsFirstMatches | src/views/users.rs:118-141 | after re-filtering, the cards are the first matching users, up to 12, in load order |
| UsersView.ShownUsers | src/views/users.rs:138-141 | 12 cards on a full page, the remainder on the last page, none past it; card i is filtered user page·12+i |
| UsersView.PagesShowEveryUser | src/views/users.rs:138-141 | walking the pages shows every user once, in order |
| UsersView.DisplayNameShowsBothNames | src/views/users.rs:125-135 | in either name order, the card shows both names |
| UsersView.SelectAllAsWrittenMissesListedUsers | src/views/users.rs:155-168 | as written, select-all can untick everything while no listed user is ticked |
| UsersView.SelectAll | src/views/users.rs:155-168 | corrected: untick all when every listed user is ticked, otherwise tick exactly the listed ones |
| UsersView.SelectAllToggles | src/views/users.rs:155-168 | corrected: the button ticks every listed user, and pressing it again unticks them all |
| UsersView.SelectAllAgreesOnExactSelection | src/views/users.rs:155-168 | when exactly the listed users are ticked, both versions untick everything |
| UsersView.LoadUserForm | src/views/users.rs:718-735 | a new user opens empty with male gender; an edited user opens with their names; the password is always empty |
| UsersView.OptText | src/views/users.rs:761-767 | empty text is stored as nothing |
| UsersView.UserOf | src/views/users.rs:750-785 | the record has the form's names, no preaching group, and nothing for empty optional fields |
| UsersView.SaveUser | src/views/users.rs:739-810 | a blank first or last name is refused with its message; a create gets a temporary id and an edit keeps the user's id |
| UsersView.EditUserRoundTrip | src/views/users.rs:718-785 | opening an editable user and saving without changes writes the same user |
| UsersView.EditDropsGroupAndPassword | src/views/users.rs:750-785 | an unchanged edit still clears the preaching group and the stored password |
| Seqs.Toggle | src/views/users.rs:143-153 | the id's membership flips and every other id's membership is kept |
| Seqs.ToggleTwice | src/views/field_service_groups.rs:712-719 | toggling keeps the list free of duplicates, and toggling twice restores membership |
| UserCreation.SubmitReportsFirstFailure | src/components/onboarding/user_creation_step.rs:24-58 | a refusal shows the message of the first failing check, in source order |
| UserCreation.EarlierCheckWins | src/components/onboarding/user_creation_step.rs:24-58 | when two checks fail, the later one's message is never shown |
| UserCreation.MessagesDistinct | src/components/onboarding/user_creation_step.rs:24-58 | the seven messages are pairwise different, so the message shown names the check that failed |
| UserCreation.Submit | src/components/onboarding/user_creation_step.rs:22-85 | an administrator is produced iff names and email are non-blank, the email has '@', the password is at least 6 bytes and matches the confirmation |
| UserCreation.PaddedPasswordPasses | src/components/onboarding/user_creation_step.rs:45-53 | only the blank test trims, so one letter followed by six spaces is a valid password |
| UserCreation.AdminUser | src/components/onboarding/user_creation_step.rs:61-81 | trimmed names and email, id `user:` plus the trimmed email, family head, no type or appointment, and the phone trimmed or nothing when blank |
| CongregationStep.NameOrderOf | src/components/onboarding/congregation_step.rs:156-159 | last name first iff the value is "lastname" |
| CongregationStep.FirstWeekdayOf | src/components/onboarding/congregation_step.rs:174-177 | Monday iff the value is "monday" |
| CongregationStep.WeekdayMeetingDayOf | src/components/onboarding/congregation_step.rs:198-205 | always a day from Monday to Friday, and Monday for unknown values |
| CongregationStep.WeekendMeetingDayOf | src/components/onboarding/congregation_step.rs:257-261 | Saturday or Sunday, and Saturday unless the value is "Sun" |
| CongregationStep.SelectsRoundTrip | src/components/onboarding/congregation_step.rs:156-264 | every option reads back as the value it shows |
| CongregationStep.FromHms | src/components/onboarding/congregation_step.rs:37 | a time exists iff hour, minute and second are in range |
| CongregationStep.Meeting | src/components/onboarding/congregation_step.rs:35-50 | accepted iff hour and minute parse as u32 below 24 and 60, at second 0; every refusal says "…meeting time format", so the other message cannot appear |
| CongregationStep.Meetings | src/components/onboarding/congregation_step.rs:35-71 | the weekday time's error is reported before the weekend time's |
| CongregationStep.Submit | src/components/onboarding/congregation_step.rs:26-87 | a blank name is refused before any time; otherwise accepted iff both times fit, with the trimmed name, the code trimmed or nothing, and the chosen settings |
| CongregationStep.DefaultsAccepted | src/components/onboarding/congregation_step.rs:12-23 | with only a name typed, the defaults give Monday 19:00 and Saturday 10:00, first name first, weeks from Sunday |
| CongregationSettings.FormatHM | src/views/congregation_settings.rs:49-51 | "%H:%M" gives two digits of hour, ':', and two digits of minute |
| CongregationSettings.ParseHM | src/views/congregation_settings.rs:68-72 | an accepted text is hour, ':', minute, and names a time of day at second 0 |
| CongregationSettings.ParseHMAccepts | src/views/congregation_settings.rs:68-72 | every in-range "H:M" text with one or two digits per field is accepted |
| CongregationSettings.FormatHMRoundTrip | src/views/congregation_settings.rs:49-72 | a loaded time parses back to the same hour and minute |
| CongregationSettings.NameOrderOf | src/views/congregation_settings.rs:278-281 | last name first iff the value is "LastnameFirstname" |
| CongregationSettings.FirstWeekdayOf | src/views/congregation_settings.rs:320-330 | Monday iff the value is "Monday" |
| CongregationSettings.WeekdayMeetingDayOf | src/views/congregation_settings.rs:356-365 | a day's abbreviation gives that day, and anything else gives Thursday |
| CongregationSettings.WeekendMeetingDayOf | src/views/congregation_settings.rs:401-410 | a day's abbreviation gives that day, and anything else gives Sunday |
| CongregationSettings.SelectsRoundTrip | src/views/congregation_settings.rs:278-410 | each select decodes its own encoding |
| CongregationSettings.LoadSettings | src/views/congregation_settings.rs:42-53 | the form shows the congregation's fields, with times as text that parses back to them |
| CongregationSettings.Save | src/views/congregation_settings.rs:55-90 | nothing is saved without a loaded congregation; the id is kept, the name trimmed and the code trimmed or nothing; an unreadable time falls back to 19:00 or 10:00 |
| CongregationSettings.SaveAfterLoad | src/views/congregation_settings.rs:42-90 | saving the loaded form unchanged stores the congregation at whole minutes |
| CongregationSettings.SaveIsStable | src/views/congregation_settings.rs:42-90 | loading a saved congregation and saving again changes nothing |
| CongregationSettings.ExportCoversDeletion | src/views/congregation_settings.rs:105-136 | the export lists exactly the tables "delete everything" empties, each once |
| Navigation.ParentSection | src/views/home.rs:18-33 | only the dashboard has no parent; every parent is the dashboard, the reports list or a category |
| Navigation.BackReachesDashboard | src/views/home.rs:18-49 | three presses of back reach the dashboard from any section |
| Navigation.HeaderShowsBack | src/views/home.rs:101-103 | the header with its back button shows on every section but the dashboard |
| Navigation.MenuAgreesWithBack | src/components/menu.rs:4-17 | below a category, the menu highlights it iff back leads to it |
| Navigation.HighlightUnique | src/components/menu.rs:4-17 | at most one menu entry is highlighted |
| Navigation.PublisherPageHighlightsNothing | src/components/menu.rs:4-17 | a publisher's reports page highlights no menu entry |
| Navigation.SectionTitle | src/views/home.rs:217-248 | the title is "Unknown" exactly for sections outside the table |
| Navigation.ScreenOf | src/views/home.rs:127-209 | categories open their own screen; `field_service_reports/<id>` opens that publisher's reports, with the id after the prefix |
| Navigation.CategoryPagesAreTitled | src/views/home.rs:127-248 | every page a category lists has a screen or a real title |
| Navigation.ReportRowOpensPublisher | src/views/home.rs:193-197 | a reports-list row opens that publisher's reports, and back returns to the list |
| Navigation.HeaderName | src/views/home.rs:73-87 | the header shows "User" until the congregation and user are loaded |
| Navigation.HeaderNameAsLists | src/views/home.rs:73-87 | once loaded, the header formats the name as the lists do |
| Stepper.StateOf | src/components/stepper.rs:14-16 | a step is exactly one of current, completed (before) or pending (after) |
| Stepper.Circles | src/components/stepper.rs:14-51 | one circle per step, each classified against the current step |
| Stepper.Connectors | src/components/stepper.rs:53-62 | one connector per step but the last, in the success colour iff its step is done |
| Stepper.CirclesCount | src/components/stepper.rs:14-51 | one circle is current, current − 1 are completed and the rest pending |
| Stepper.ConnectorFollowsCircle | src/components/stepper.rs:56-60 | a connector is in the success colour iff the circle before it is completed |
| Landing.FinalViewOf | src/views/landing.rs:60-136 | step 4 shows, in precedence, the success card, the spinner, the error, or the form |
| Landing.ScreenOf | src/views/landing.rs:30-59 | "Invalid step" shows exactly outside steps 1–4 |
| Landing.OwnerRoleAsWrittenMissesUser | src/views/landing.rs:149-161 | as written, the owner role never points at the user just created |
| Landing.EmailThingString | src/views/landing.rs:150 | the administrator created from "a@b.c" has the id text `user:⟨a@b.c⟩` |
| Landing.OwnerRoleAsWrittenExample | src/views/landing.rs:149-161 | as written, the administrator `user:⟨a@b.c⟩` gets the role `owner_user:⟨a@b.c⟩` pointing at the user whose key is `user:⟨a@b.c⟩` |
| Landing.OwnerRole | src/views/landing.rs:149-166 | corrected: the role points at the created user and its key is "owner_" followed by the user's id |
| Landing.OwnerRoleKeysDistinct | src/views/landing.rs:149-166 | corrected: two users never share an owner role key |
| Landing.SetupChain | src/views/landing.rs:137-215 | congregation, user and role are written in order; each failure shows its own message and keeps exactly the writes before it; only full success stores a role, the one built for the created user's id |
| Landing.Setup | src/views/landing.rs:137-215 | as written: the chain succeeds only when every write does; each failure shows its own message ("Failed to create congregation: …", "Failed to create user: …", "User created without ID", "User created but failed to assign Owner role: …") and keeps the writes before it; success stores an owner role keyed "owner_" and the user id's whole text, whose publisher is the `user` record keyed by that text, never the created user |
| Landing.SetupIntended | src/views/landing.rs:149-166 | corrected: the same chain storing an owner role whose publisher is the created user and whose key is "owner_" and the user's id |
| Landing.SetupDiffersOnlyInRole | src/views/landing.rs:137-215 | the two chains succeed and fail together with the same message and kept writes, and on success store different publishers |
| Landing.Next | src/views/landing.rs:30-136 | the end of the save chain clears saving and sets completion or the error; other events only act through their screen's button |
| Landing.NextKeepsConsistent | src/views/landing.rs:30-218 | every event keeps the step in 1–4, with the congregation from step 3 and the mode at step 4 |
| Landing.RunKeepsConsistent | src/views/landing.rs:30-224 | from the start, "Invalid step" never shows, and the form's unwraps of congregation and mode are safe |
| Landing.StartConsistent | src/views/landing.rs:10-16 | the wizard opens on the welcome step |
| Landing.GoBackThenRetry | src/views/landing.rs:128-131 | "Go Back" after a failure clears the error and returns to the mode choice, so choosing again reopens the form |
| Landing.StepperShowsStep | src/views/landing.rs:23-27 | the stepper's current circle is the wizard's step, and the circles before it are completed |
| Paging.TotalPages | src/views/users.rs:138 | the page count is the ceiling of the list length over the page size |
| Paging.Page | src/views/users.rs:139-141 | a page is the slice `skip(p·n).take(n)`: n items on a full page, the remainder on the last, none past it, item i being list item p·n+i |
| Paging.WithinTotal | src/views/users.rs:138-139 | page k starts inside the list exactly when k is below the page count |
| Paging.PagesCoverList | src/views/users.rs:138-141 | the pages concatenated are the whole list |
| Paging.PreviousPage | src/views/users.rs:565 | « steps back one page and stays at 0 |
| Paging.NextPage | src/views/users.rs:582 | » steps forward one page and stops at the last |
| Text.TrailingSegment | src/views/field_service_groups.rs:303 | the part after the last ':' holds no ':' and is no longer than the text |
| Text.TrailingSegmentIsSuffix | src/views/field_service_groups.rs:303 | that part ends the text, and is preceded by ':' whenever it is shorter than the text |
| Text.TrimmedOrNone | src/components/onboarding/user_creation_step.rs:70 | nothing iff the text is blank, otherwise the trimmed text |
| Text.TrimIdempotent | src/views/congregation_settings.rs:62-63 | trimming twice is trimming once |
| Text.BlankIffAllWhitespace | src/components/onboarding/user_creation_step.rs:24 | trimmed text is empty iff every character is whitespace |
| Numbers.ParseIntToDecimal | src/views/publisher_reports.rs:206-207 | every in-range integer's decimal text parses back to it |
| Numbers.ParseU32Accepts | src/components/onboarding/congregation_step.rs:35 | u32 parsing accepts exactly an optional '+' and non-empty digits of value at most 4294967295 |
| Records.KeyTextShape | src/views/field_service_groups.rs:650-653 | a plain identifier prints as itself; any other key prints between `⟨` and `⟩`, never as a plain identifier and never shorter |
| Records.KeyTextColon | src/views/field_service_groups.rs:299-310 | a printed key holds ':' iff the key does |
| Records.ParseKey | src/views/field_service_groups.rs:739-741 | a plain identifier reads as itself; a bracketed text with no `⟩` or backslash inside reads as its inside; nothing else is accepted |
| Records.KeyRoundTrip | src/views/field_service_groups.rs:739-741 | a non-empty key without `⟩` or backslash, printed and read back, is the same key |
| Records.KeyTextIsPrinted | src/views/field_service_groups.rs:739-741 | such a key's printed text reprints as itself after being read |
| Records.PrintedKeyShape | src/views/field_service_groups.rs:739-741 | a readable text differs from its reprint exactly when it is a bracketed plain identifier such as `⟨abc⟩` |
| Records.TrailingIdOfPlainLocal | src/views/field_service_groups.rs:299-310 | for a key without ':', a record's trailing id is its printed key, and the key itself when it is a plain identifier |
| Records.DisplayName | src/views/users.rs:125-134 | "last, first" for last-name-first order, "first last" otherwise or with no congregation |
| Records.ParseDay | src/views/congregation_settings.rs:356-365 | a day abbreviation gives its day and anything else gives nothing |

## Left out

- Rendering: markup, CSS classes, icons, alerts and event wiring.
- Concurrency: async tasks, signal reactivity, "Loading..." states and reload timers.
- The dashboard view and the welcome and mode-selection steps' own pages are not modelled.
- The store: every create, read, update and delete is a parameter holding its reply, and only the reply is modelled.
- The clock: "today" is a parameter rather than `Utc::now`.
- Lower-casing covers ASCII and the Latin-1 capitals only. Full Unicode `to_lowercase` is left out, because it needs the Unicode tables.
- FieldServiceReports.PreviousMonthTotals: the i16 sums are unbounded integers, so overflow is not modelled.
- FieldServiceReports.PreviousMonthBadge: the total is unbounded in the same way.
- PublisherReports.DerivePreached: the i16 sum is unbounded, so overflow is not modelled.
- PublisherReports.PioneerTotal: the i16 sum is unbounded, so overflow is not modelled.
- FieldServiceGroups.ParseUserRef: models SurrealDB's `Thing` parse as accepting a plain identifier (letters, digits, '_') or a key in `⟨…⟩` with no `⟩` or backslash inside. Backtick-quoted keys, escaped `\⟩`, numeric, array, object and UUID ids are left out.
- FieldServiceGroups.BuildGroup: the no-duplicates clause needs every ticked id in printed form, because "abc" and "⟨abc⟩" read as the same user; ids the form loads are always in printed form (LoadedFormIsPrinted).
- Seqs.SortBy: proves a sorted permutation. Rust's sort is stable, but stability is not proved.
- Dates.ParseIsoDate: accepts only four-digit years and exact "YYYY-MM-DD"; chrono's wider year range is left out.
- CongregationSettings.ParseHM: reads "H:M" with one or two digits per field. chrono also skips whitespace before each number; that leniency is left out.
- CongregationSettings.LoadSettings: requires the stored times to be times of day, which chrono's `NaiveTime` guarantees.
- The stepper's mobile progress bar width is a float and is left out, as is its caption text.
- Export, delete and import in the danger zone are browser Blob, URL and reload calls over the store; only their table lists are compared.
- Emergency contacts, and the role grant's dates and notes, are carried but never edited here.
- Records.KeyText: a `⟩` inside a bracketed key is printed unescaped, where SurrealDB writes `\⟩`; the round-trip lemmas therefore exclude keys holding `⟩` or a backslash.
- Records.KeyText: a text key made only of digits is printed bare, where SurrealDB brackets it to tell it from a numeric id; keys are text throughout, and numeric ids are not modelled.
- Dates.Valid does not bound the year; chrono's year range −262144 to 262143 is enforced where dates are made (Dates.FromYmd), and the pickers' ensures assume the current date lies in it.
- The placeholder "—" in the group column and the report rows is written in the source as a mis-encoded em dash ("â€”"); it is modelled as the em dash U+2014.
- The user settings page, the database connection module and the model files' CRUD wrappers are not part of this model.

## Findings

| source | as written | input that shows it | evidently intended | confidence | as-written member | corrected member |
|---|---|---|---|---|---|---|
| src/views/field_service_reports.rs:264-281 | the group column compares the group id's full `table:local` text with the user's bare group id | a user in group `field_service_group:g1` whose group has the same id | show the name of the user's group | not executed | FieldServiceReports.GroupNameAsWrittenNeverFinds | FieldServiceReports.GroupNameFindsGroup |
| src/views/users.rs:155-168 | select-all unticks everything when the number of ticked ids equals the number of listed users | ticks `user:a`, `user:b` from an earlier filter, then a list of `user:c`, `user:d` | untick only when every listed user is ticked, otherwise tick them | not executed | UsersView.SelectAllAsWrittenMissesListedUsers | UsersView.SelectAllToggles |
| src/views/landing.rs:149-161 | the owner role is built from the user id's full `table:local` text, used as the local part of a new `user` reference | the administrator created from "a@b.c", whose id prints as `user:⟨a@b.c⟩` | the role points at that user, keyed `owner_a@b.c` | not executed | Landing.OwnerRoleAsWrittenMissesUser | Landing.SetupIntended |
