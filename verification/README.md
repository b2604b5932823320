# Portfolio site: admin actions, reorder route and public sections

A Dafny model of the decision logic of a personal portfolio site built with
Next.js and Prisma. The model covers:

- the server actions that validate admin and contact forms and write to the
  database;
- the admin login and the middleware that guards the dashboard;
- the `PUT /api/admin/reorder` route, which stores a new sort position for
  each row of a batch in one transaction;
- the admin dashboard's tab badges, move buttons, reorder payload and delete
  dispatch;
- the public page's section list and the project, skill and hero sections;
- the project seeding script and the skill colour migration.

The database is a record of tables (`Store.Db`). Each table is a sequence of
rows in storage order, and each row carries a string id. The seven
reorderable collections wrap their content in `Store.Ordered`, so a write that
only touches the `order` column visibly leaves the content alone.

The model keeps JavaScript's own semantics where they decide an outcome:

- truthiness (`x || null`, `!model`, `isVisible !== false`);
- `String.prototype.trim`, `split` and `parseInt`;
- UTF-16 string lengths for the zod `min` checks;
- the 32-bit `order` column.

Files and modules:

- `base.dfy` (`Base`): `Option`, `Filter` and `Count`.
- `jsstrings.dfy` (`JsStrings`): JavaScript string built-ins.
- `store.dfy` (`Store`): entities, tables and ORM primitives.
- `forms.dfy` (`Forms`): zod schemas, form field extraction and every server
  action of `src/lib/actions.ts` except login and logout.
- `auth.dfy` (`Auth`): login, logout and the middleware.
- `reorder.dfy` (`ReorderRoute`): the reorder route, with a small JSON
  datatype for its body.
- `display.dfy`: four modules.
  - `ProjectsSection`: the public projects grid.
  - `SkillsSection`: the public skills grid.
  - `HeroSection`: the hero banner.
  - `HomePage`: the section list of the home page.
- `dashboard.dfy` (`Dashboard`): the admin dashboard client.
- `scripts.dfy`: two modules.
  - `SeedProjects`: `scripts/seed-projects.ts`.
  - `MigrateSkills`: `scripts/migrate-skills.ts`.

## Model

| member | source | states |
|---|---|---|
| Store.IndexOf | src/lib/actions.ts:217 | the position found holds the id, and no earlier row does; none exactly when no row has the id |
| Store.FirstWhere | scripts/seed-projects.ts:67-69 | `findFirst` with a filter: the first matching row in the model's fixed row order; none exactly when no row matches |
| Store.Insert | src/lib/actions.ts:158-160 | a create appends exactly one row after the existing ones and keeps ids unique |
| Store.Modify | src/lib/actions.ts:194-197 | an update by id fails exactly when the id is absent; otherwise only the row with that id changes, and ids and length are kept |
| Store.Remove | src/lib/actions.ts:217 | a delete by id fails exactly when the id is absent; otherwise one row goes, the id is gone, every remaining row was there before, and every row with another id stays; with unique ids the result is the table without that id |
| Store.RemoveAt | src/lib/actions.ts:217 | cutting out the only row with the id equals filtering the id out, keeps ids unique and leaves no row with that id |
| Base.Filter | src/app/page.tsx:49 | `Array.filter`: every kept element passes, and the result is no longer than the input |
| Base.FilterMembers | src/app/page.tsx:49 | an element is kept exactly when it occurs in the input and passes |
| Base.FilterKeepsProperty | src/lib/actions.ts:143 | a property every input element has, every kept element has |
| Base.FilterAppend | src/app/page.tsx:49 | filtering distributes over concatenation |
| Base.FilterLength | src/components/sections/ProjectsClient.tsx:16 | the filtered length is the count of passing elements |
| Base.FilterIsSubsequence | src/components/sections/SkillsClient.tsx:54 | filtering keeps the input's order: the result is a subsequence of the input |
| Base.FilterMap | src/lib/actions.ts:143 | filtering after a map equals mapping after filtering with the composed test |
| Base.CountMissing | src/components/sections/SkillsClient.tsx:54 | one failing element makes the count of passing elements smaller than the length |
| Base.FilterKeepsSorted | src/app/page.tsx:38-49 | filtering keeps a strictly increasing order |
| JsStrings.Trim | src/lib/actions.ts:143 | `trim` yields a string with no whitespace at either end and leaves a trimmed string as it is |
| JsStrings.TrimDropsOnlyWhitespace | src/lib/actions.ts:143 | everything `trim` drops, before and after the result, is whitespace |
| JsStrings.TrimOccurs | src/lib/actions.ts:143 | the trimmed string occurs in the input, right after the leading whitespace |
| JsStrings.TrimKeepsOut | src/lib/actions.ts:143 | trimming adds no character: one absent from the input is absent from the result |
| JsStrings.TrimIdempotent | src/lib/actions.ts:143 | trimming twice equals trimming once |
| JsStrings.Split | src/lib/actions.ts:143 | `split` with a one-character separator yields at least one piece, and no piece contains the separator |
| JsStrings.JoinSplit | src/lib/actions.ts:143 | joining the pieces of a split with the separator gives back the input |
| JsStrings.SplitJoin | src/lib/actions.ts:143 | splitting a join of separator-free pieces gives back the pieces |
| JsStrings.SplitFirstIsPrefix | scripts/seed-projects.ts:68 | the first piece of a split is a prefix of the input |
| JsStrings.Join | src/components/admin/ProjectForm.tsx:176 | `join` of no pieces is empty, and a join starts with its first piece followed by the separator when there is a second |
| JsStrings.ParseInt | src/lib/actions.ts:240 | `parseInt` yields a number exactly when a digit follows the leading whitespace, the sign and any `0x` prefix; the number is never positive after a minus sign and never negative otherwise |
| JsStrings.JsLength | src/lib/actions.ts:36-40 | the UTF-16 length lies between the character count and twice it, and is zero only for the empty string |
| JsStrings.JsLengthBasicPlane | src/lib/actions.ts:36-40 | for text of the basic multilingual plane, the UTF-16 length is the character count |
| JsStrings.OrNull | src/lib/actions.ts:149-152 | `s \|\| null` is null exactly for the empty string and is `s` otherwise |
| JsStrings.ParseIntOfIntToString | src/lib/actions.ts:240 | `parseInt` reads back any integer written in decimal |
| Forms.ParseList | src/lib/actions.ts:143 | every tag of the parsed list is non-empty, trimmed and comma-free |
| Forms.ParseListPieces | src/lib/actions.ts:143 | the tags are exactly the trimmed comma-separated pieces that are not blank, in order: one tag per non-blank piece, and each such piece trimmed is a tag |
| Forms.ParseListOfJoined | src/lib/actions.ts:143 | a tag list shown as `a, b, c` parses back to the same list, in order |
| Forms.Accepts | src/lib/actions.ts:114-121 | a field missing from the form reads as `null` and is never accepted, and a text field is accepted exactly when its UTF-16 length reaches the minimum |
| Forms.Errors | src/lib/actions.ts:125-139 | the field errors name exactly the fields whose rule rejects the submitted value |
| Forms.FailingFieldIsReported | src/lib/actions.ts:49-53 | every field whose rule rejects its value is listed in the errors |
| Forms.ReportedFieldFails | src/lib/actions.ts:49-53 | every listed field names a rule that rejects its value |
| Forms.ProjectFields | src/lib/actions.ts:142-154 | title and description are stored as submitted; a non-empty image or link is stored as given and an empty one as null; the tags are the parsed tag list; featured and visibility are the checkbox states |
| Forms.SkillFields | src/lib/actions.ts:251-253 | name, category and icon are stored as submitted; a non-empty colour is stored as given and an empty or missing one as null; the proficiency is the parsed number; visibility is the checkbox state |
| Forms.AchievementFields | src/lib/actions.ts:538 | title, description and date are stored as submitted; a non-empty award is stored as given and an empty one as null |
| Forms.HeroFields | src/lib/actions.ts:833 | the heading and subheading are stored as submitted, and the keywords are the parsed list, each non-empty and trimmed |
| Forms.MessageFields | src/lib/actions.ts:61-66 | a new message is stored unread |
| Forms.CreateOrdered | src/lib/actions.ts:124-168 | a create is refused with the schema's errors and stores nothing when validation fails; otherwise it appends one row at the default position |
| Forms.UpdateOrdered | src/lib/actions.ts:171-212 | an update is refused on validation errors and fails on an unknown id, changing nothing in either case; otherwise it replaces only that row's content and keeps its position |
| Forms.Delete | src/lib/actions.ts:215-225 | a delete fails exactly when the id is unknown and then changes nothing; otherwise one row goes, the id is gone, every row with another id stays, and with unique ids the table is the old one without that id |
| Forms.SendContactMessage | src/lib/actions.ts:42-108 | a message is refused exactly when validation fails, and nothing is stored; otherwise the submitted name, email and text are appended unread, and the action reports failure exactly when sending the e-mail throws |
| Forms.ContactRejectsShortInput | src/lib/actions.ts:36-40 | a name shorter than 2 or a message shorter than 10 code units is refused, that field is reported, and nothing is stored |
| Forms.SkillRejectsProficiencyOutOfRange | src/lib/actions.ts:229-242 | a proficiency that parses to a number outside 0..100 is refused, reported, and nothing is stored |
| Forms.SkillAcceptsSubmittedProficiency | src/lib/actions.ts:232 | every whole number from 0 to 100, written in decimal, passes the proficiency rule |
| Forms.MarkMessageAsRead | src/lib/actions.ts:416-427 | fails exactly on an unknown id; otherwise only that message's read flag becomes true |
| Forms.UpsertFirst | src/lib/actions.ts:628-640 | the first row in the model's fixed row order is overwritten, keeping its id and the other rows; with no row, exactly one is created |
| Forms.UpdateProfile | src/lib/actions.ts:608-647 | the profile is refused exactly on validation errors, changing nothing; otherwise the first profile row is overwritten or created |
| Forms.UpdateProfileIdempotent | src/lib/actions.ts:628-640 | submitting the same profile form twice leaves what the first submission left |
| Forms.UpdateHeroSettings | src/lib/actions.ts:818-861 | the hero settings are refused exactly on validation errors; otherwise the first settings row is overwritten or created |
| Forms.UpdateHeroSettingsSingleton | src/lib/actions.ts:836-852 | a saved hero form never adds a row when one exists, and creates exactly one when none does |
| Auth.ExpectedPassword | src/lib/actions.ts:15 | an unset or empty setting falls back to the built-in password |
| Auth.Login | src/lib/actions.ts:11-29 | login succeeds exactly for the expected password; the result is an http-only session cookie for the admin, valid one day, and a redirect to the dashboard |
| Auth.Logout | src/lib/actions.ts:31-34 | logout sets an empty, already expired session cookie and redirects to the login page |
| Auth.PresentedSession | src/middleware.ts:12-13 | a missing or empty cookie presents no session; any other cookie presents what it decrypts to |
| Auth.Middleware | src/middleware.ts:5-21 | only paths under `/admin/dashboard` are guarded, and a guarded path redirects to login exactly when no session can be read |
| Auth.Serve | src/middleware.ts:23-25 | a request redirects to login exactly when the matcher covers its path and no session can be read |
| Auth.InstalledPathsAreProtected | src/middleware.ts:9 | every path the matcher covers is one the middleware guards |
| Auth.UnreadableCookieIsNoCookie | src/middleware.ts:13 | a cookie that fails to decrypt is treated like no cookie |
| Auth.LoginOpensDashboard | src/lib/actions.ts:15-27 | with the right password, every dashboard page passes the middleware until the cookie expires |
| Auth.LogoutClosesDashboard | src/lib/actions.ts:31-34 | after logout every dashboard page redirects to login |
| ReorderRoute.ParseModel | src/app/api/admin/reorder/route.ts:13-16 | a model name is accepted exactly when it is one of the seven allowed names, and the collection found carries that name |
| ReorderRoute.ModelNameRoundTrip | src/app/api/admin/reorder/route.ts:13 | every collection's model name is accepted and leads back to that collection |
| ReorderRoute.ParseItem | src/app/api/admin/reorder/route.ts:20-26 | an item is accepted exactly when its id is a string and its order is missing or a 32-bit integer; an accepted item writes that order, and leaves the order alone exactly when it has none |
| ReorderRoute.ParseItems | src/app/api/admin/reorder/route.ts:20-27 | a batch parses exactly when every item does, item by item |
| ReorderRoute.ApplyAll | src/app/api/admin/reorder/route.ts:19-28 | the transaction commits exactly when every id is stored; each row then holds the last order written for it, and content and ids are untouched |
| ReorderRoute.ApplyInSpec | src/app/api/admin/reorder/route.ts:19-28 | the update goes to the named collection only, and every other table is unchanged |
| ReorderRoute.Put | src/app/api/admin/reorder/route.ts:4-35 | every response is success, one of the two 400 errors or the 500 error, and the database changes only on success |
| ReorderRoute.MalformedBodyRefused | src/app/api/admin/reorder/route.ts:8-10 | a body without a truthy model or items is refused with 400 and changes nothing |
| ReorderRoute.UnknownModelRefused | src/app/api/admin/reorder/route.ts:14-16 | a model outside the allow-list is refused with 400 and changes nothing |
| ReorderRoute.EmptyBatchSucceeds | src/app/api/admin/reorder/route.ts:19-30 | an empty batch for an allowed model succeeds and changes nothing |
| ReorderRoute.PutSpec | src/app/api/admin/reorder/route.ts:19-34 | a well-formed batch succeeds exactly when every id is stored, and then applies the batch; otherwise it answers 500 and changes nothing |
| ReorderRoute.PutReachesApply | src/app/api/admin/reorder/route.ts:8-29 | a body with an allowed model and parsable items passes every check and answers with the outcome of the batch |
| ReorderRoute.MalformedItemFailsBatch | src/app/api/admin/reorder/route.ts:19-34 | one malformed item makes the whole batch fail with 500, and nothing is written |
| ProjectsSection.Displayed | src/components/sections/ProjectsClient.tsx:16-17 | shows only visible projects, in order, as a prefix of all visible ones: all when expanded, at most six when collapsed |
| ProjectsSection.ToggleChangesDisplay | src/components/sections/ProjectsClient.tsx:60 | the "view more" button appears exactly when expanding would show more |
| ProjectsSection.Column | src/components/sections/ProjectsClient.tsx:39-43 | column c holds the items at positions c, c+3, c+6, and so on |
| ProjectsSection.ColumnsPartition | src/components/sections/ProjectsClient.tsx:39-43 | the three columns together hold every item exactly once |
| SkillsSection.ColorOf | src/components/sections/SkillsClient.tsx:56-63 | the colour tier follows the thresholds 90, 80 and 60, with a missing proficiency read as 0 |
| SkillsSection.ColorMonotone | src/components/sections/SkillsClient.tsx:59-62 | a higher proficiency never gets a lower tier |
| SkillsSection.Displayed | src/components/sections/SkillsClient.tsx:54-84 | only skills not hidden are shown, in their stored order; expanded shows every one, collapsed shows every shown skill among the first eight and nothing after them |
| SkillsSection.NoToggleShowsAll | src/components/sections/SkillsClient.tsx:113 | without the toggle button both views are the same |
| SkillsSection.HiddenSkillsShortenCollapsedView | src/components/sections/SkillsClient.tsx:54-84 | because the first eight are taken before hidden ones are dropped, one hidden skill among the first eight leaves fewer than eight in the collapsed view, while the expanded view counts every shown skill |
| HeroSection.Roles | src/components/sections/Hero.tsx:22-31 | the rotating roles are the stored keywords when there are any, else the four defaults; never empty |
| HeroSection.NextRole | src/components/sections/Hero.tsx:37 | the next index stays within the roles and advances by one until the end |
| HeroSection.RotationCycles | src/components/sections/Hero.tsx:33-41 | the rotation shows each role once in order and then returns to the first |
| HeroSection.RoleAfterPeriodic | src/components/sections/Hero.tsx:37 | after a full cycle the same role is shown again |
| HeroSection.Heading | src/components/sections/Hero.tsx:70 | the heading is the stored one when non-empty, and "Welcome to the Void" when there are no settings or the stored heading is empty; never empty |
| HomePage.Candidates | src/app/page.tsx:38-48 | the ten sections in page order; hero, about and contact are always listed, and every other section is flagged exactly when its collection has content |
| HomePage.VisibleSections | src/app/page.tsx:38-49 | a section is shown exactly when it has content, in page order; hero and about always open the page, and contact always closes it |
| HomePage.Background | src/app/page.tsx:53-55 | a section is transparent exactly at an even position, and tinted otherwise |
| HomePage.BackgroundsAlternate | src/app/page.tsx:53-55 | neighbouring sections get different backgrounds, and the first is transparent |
| Dashboard.BadgeRule | src/components/admin/AdminDashboardClient.tsx:76-87 | hero and profile never show a badge; every other tab shows one exactly when its table is non-empty |
| Dashboard.ReorderModelsAllowed | src/components/admin/AdminDashboardClient.tsx:199-271 | every model name the dashboard sends is accepted by the route and names that tab's collection |
| Dashboard.MoveLeft | src/components/admin/AdminDashboardClient.tsx:586-599 | moving left is impossible exactly at the first item; otherwise it swaps the item with its left neighbour |
| Dashboard.MoveRight | src/components/admin/AdminDashboardClient.tsx:600-608 | moving right is impossible exactly at the last item; otherwise it swaps the item with its right neighbour |
| Dashboard.SwapIsPermutation | src/components/admin/AdminDashboardClient.tsx:490-517 | a move keeps exactly the same items |
| Dashboard.SwapKeepsDistinct | src/components/admin/AdminDashboardClient.tsx:490-517 | a move keeps ids distinct |
| Dashboard.LeftThenRight | src/components/admin/AdminDashboardClient.tsx:494-517 | moving an item left and then right restores the list |
| Dashboard.RightThenLeft | src/components/admin/AdminDashboardClient.tsx:494-517 | moving an item right and then left restores the list |
| Dashboard.PayloadParses | src/components/admin/AdminDashboardClient.tsx:123-126 | the payload the dashboard builds parses, in the route, to one update per item giving its position |
| Dashboard.PositionsLastOrder | src/components/admin/AdminDashboardClient.tsx:123-126 | with distinct ids, each id's last written order is its position, and ids outside the list get none |
| Dashboard.ReorderRoundTrip | src/components/admin/AdminDashboardClient.tsx:119-141 | a reorder the dashboard sends for stored rows succeeds; each row's order becomes its new position, other rows and tables are untouched |
| Dashboard.DeleteTarget | src/components/admin/AdminDashboardClient.tsx:101-111 | exactly the seven delete kinds reach a delete action |
| Dashboard.DeleteButtonsTargetListedCollection | src/components/admin/AdminDashboardClient.tsx:198-270 | every tab's delete button deletes from that tab's own collection |
| Dashboard.HandleDelete | src/components/admin/AdminDashboardClient.tsx:101-117 | nothing changes unless the dialog is confirmed and the kind is known; then exactly the chosen collection loses the row |
| Dashboard.DeleteProjectRemovesRow | src/components/admin/AdminDashboardClient.tsx:105 | a confirmed project delete removes that project |
| Dashboard.BarMatchesPublicRing | src/components/admin/AdminDashboardClient.tsx:629-631 | the admin bar colour equals the public ring colour for every stored proficiency |
| SeedProjects.MatchKey | scripts/seed-projects.ts:68 | the matching key is trimmed and holds no en dash |
| SeedProjects.MatchKeyWithoutDash | scripts/seed-projects.ts:68 | a title without an en dash is matched by the whole title, trimmed |
| SeedProjects.MatchKeyBeforeDash | scripts/seed-projects.ts:68 | a title with an en dash is matched by the text before the first one, trimmed |
| SeedProjects.KeyInTitle | scripts/seed-projects.ts:68 | every title contains its own key |
| SeedProjects.KeepImage | scripts/seed-projects.ts:80 | a non-empty existing image is kept; otherwise the seed's image is used |
| SeedProjects.Merge | scripts/seed-projects.ts:73-83 | title, description, tags and order come from the seed, the image by the image rule, and links, featured flag and visibility stay |
| SeedProjects.MergeIdempotent | scripts/seed-projects.ts:73-83 | refreshing a row twice with one seed equals refreshing it once |
| SeedProjects.Created | scripts/seed-projects.ts:84-89 | a created project has the seed's image, flags, title, description, tags and order and no links, so refreshing it with its own seed changes nothing |
| SeedProjects.Upsert | scripts/seed-projects.ts:65-89 | the first matching row is refreshed in place; with no match one row is appended; ids stay unique |
| SeedProjects.UpsertIdempotent | scripts/seed-projects.ts:65-89 | running one seed a second time changes nothing |
| SeedProjects.SeedAll | scripts/seed-projects.ts:65-90 | seeding keeps every existing row's id and adds at most one row per seed, each with a fresh id |
| MigrateSkills.Migrate | scripts/migrate-skills.ts:9-18 | every skill coloured `#00d9ff` gets no colour and is counted; nothing else changes |
| MigrateSkills.MigrateTwice | scripts/migrate-skills.ts:9-18 | a second run finds nothing to change and reports 0 |

## Left out

- Sending the contact e-mail is left out; only its outcome is modelled. `Forms.SendContactMessage` takes a flag saying that mail credentials are set and sending throws.
- Cookie writes, `redirect`, `revalidatePath`, `router.refresh`, `fetch` and `alert` are left out. Their effects appear only as returned values.
- `encrypt` and `decrypt` (`src/lib/auth.ts`) are not part of this model. They are parameters, and `decrypt` is partial.
- The clock is a parameter `now`.
- zod's e-mail and URL syntax checks are parameters (`Forms.Syntax`), not regular expressions.
- The `confirm` dialog of the dashboard is a boolean parameter.
- The success and failure messages returned by the actions are left out. `Forms.Step` keeps only saved, refused-with-fields or failed.
- `deleteMessage` is covered by the generic `Forms.Delete` and is not a separate member.
- The per-entity create and update actions (`Forms.CreateProject` and the others) carry no contract of their own. Their behaviour is stated once by `Forms.CreateOrdered` and `Forms.UpdateOrdered`, which each of them calls with its own schema.
- Sorting by `order` in `findMany` is left out. Collections reach the sections already in display order.
- Timestamps (`createdAt`) and secondary sort keys are left out.
- The database schema is not part of this model. Its column defaults are taken as given: a new row's `order` is 0, and a new message's `read` flag is false.
- Store.FirstWhere, Forms.UpsertFirst: `findFirst` is called without `orderBy` (scripts/seed-projects.ts:67, src/lib/actions.ts:628 and 836), so the database may return any matching row. The model fixes one row order, and an update keeps a row in its place. `SeedProjects.UpsertIdempotent` and `Forms.UpdateProfileIdempotent` depend on that choice. With two matching rows, such as "Rain Predictor" and "Rain Predictor v2" for the key "Rain Predictor", a second run could refresh the other row.
- `parseInt` is modelled for decimal digits, a `0x` prefix, leading whitespace and a sign. Results beyond what a double holds exactly are not modelled.
- JSON numbers in a reorder body are integers only. A fractional order is rejected as a malformed item, as the 32-bit `order` column would reject it.
- The drag-and-drop reorder of the list tabs sends any permutation. It is covered by `Dashboard.ReorderRoundTrip`, which holds for every distinct id list.
- Concurrent requests, and two reorders racing each other, are left out.
- `prisma/seed.ts` and the fixture contents of the seed script are left out.
- Animations, icons, layout classes and other presentational components are left out.
- SeedProjects.SeedAll: states id preservation and freshness for the whole run, but states idempotence only per seed (`SeedProjects.UpsertIdempotent`). A later seed can match a row an earlier seed wrote.
- Storage errors of the create, update and delete actions are left out. Every `catch` of the source (for example src/lib/actions.ts:165-167, 267-269 and 355-357) turns a database error into a failure; in the model a valid create always succeeds, and an update or delete fails only on an unknown id.
- Forms.SendContactMessage: a storage failure is only logged in the source, and the action goes on to send the e-mail. The model has no storage failure, so the message is always appended.
