# Issue-report portal: a verified model of its rules

The system is a small web portal where users report a problem with a website. There is a public
intake form, and an admin console where admins view reports, export them as CSV, manage the
website and status lists, and manage admin accounts. The console is protected by an
authentication context and a route guard. Privileged account changes go through one server
endpoint, `admin-management`. That endpoint checks the caller's token and admin role before it
serves `change_password` or `create_admin`.

Every call to the hosted backend is abstracted: session lookup, role check, account mutations,
table reads and writes, storage upload and the HTTP call. Each such call becomes an input that
carries its outcome: a value, an error object, or a thrown exception. What remains is
deterministic and is modelled here.

- `wrappers.dfy` (`Wrappers`): `Option`, and `Outcome`, which is either a value that was
  returned or a message that was thrown.
- `js_text.dfy` (`JsText`): JavaScript string behaviour the rules rely on:
  - `trim` and the `\s` whitespace set;
  - `length` in UTF-16 code units;
  - code-unit order of strings;
  - `split`/`join`, and `split(".").pop()`.
- `js_values.dfy` (`JsValues`): parsed JSON values, JavaScript truthiness, property lookup, the
  `ToNumber` conversion, and `x.length < n` on arbitrary values.
- `admin_management.dfy` (`AdminManagement`): the endpoint as a pure function of the request
  and the backend outcomes. It returns the response and the sequence of steps attempted; the
  steps that mutate accounts or roles are marked.
- `admin_dashboard.dfy` (`AdminDashboard`):
  - the CSV export, together with a reader for the format it writes, which is its inverse:
    reading an export back gives the header and every report's cells;
  - the report query with its optional, inclusive date range, as a `Dashboard` class.
- `intake_form.dfy` (`IntakeForm`):
  - the form schema;
  - the 5 MB image check;
  - the upload extension rule;
  - the submit handler, as methods of an `IntakePage` class.
- `admin_account.dfy` (`AdminAccount`): the two account forms as an `AccountPage` class, with
  their checks tied to the endpoint's.
- `reference_table.dfy` (`ReferenceTable`): an abstract table of reference rows (a class), with
  select, insert, update by id and delete by id; a request can be refused.
- `admin_statuses.dfy` and `admin_websites.dfy`: the two dialog pages that edit those tables.
- `auth.dfy` (`Auth`): the authentication provider as a class whose methods are its events.
- `protected_route.dfy` (`ProtectedRoute`): the guard's decision.
- `app_routes.dfy` (`AppRoutes`): the route table, path matching, and what each path shows.

The handler checks requests in this order:
1. `OPTIONS`;
2. the header;
3. the token;
4. the role;
5. the body;
6. the action.

The model proves that no account or role mutation can happen unless all of the gate checks
passed.

`change_password` reads no `user_id` from the body and always updates the caller's own account
(`ChangePasswordIgnoresUserId`). Any action other than `change_password` and `create_admin` gets
400 `Unknown action` (`OtherActionUnknown`).

## Model

| member | source | states |
|---|---|---|
| AdminManagement.Handle | supabase/functions/admin-management/index.ts:8-62 | Every response carries the CORS headers. The status is one of 200, 400, 401, 403 or 500. There is no body exactly for `OPTIONS`, which answers 200 with no step. Any mutation attempted comes after a passed gate and the three gate steps. |
| AdminManagement.Dispatch | supabase/functions/admin-management/index.ts:32-58 | After the gate, the status is 200, 400 or 500. The earlier steps are kept. Every added step is a mutation, and every password update targets the caller. |
| AdminManagement.PasswordCheck | supabase/functions/admin-management/index.ts:34 | A falsy `new_password` is rejected without reading its length. A truthy one is compared by `LengthBelow`, which may throw. |
| AdminManagement.PasswordRejected | supabase/functions/admin-management/index.ts:34 | The check answered true. On strings this is exactly a length below six code units (`AdminAccount.ChecksAgreeWithEndpoint`); for a `length` that is a numeric string, see `NumericStringLengthRejected`. |
| AdminManagement.ChangePassword | supabase/functions/admin-management/index.ts:33-39 | A rejected password gives 400 with no update. A length conversion that throws gives 500 with no update. An accepted password makes exactly one update, for the caller's id. |
| AdminManagement.CreateAdmin | supabase/functions/admin-management/index.ts:43-55 | A falsy email or password gives 400 with no call. Otherwise the creation is attempted pre-confirmed. A role insert happens only after a successful creation, for the new id. |
| AdminManagement.UnauthorizedIff | supabase/functions/admin-management/index.ts:17-24 | The status is 401 exactly when the header is missing or empty, or when the token resolves to no user. |
| AdminManagement.ForbiddenIff | supabase/functions/admin-management/index.ts:26-27 | The status is 403 exactly when the caller is authenticated and the role check answered a falsy value. |
| AdminManagement.GateBeforeBody | supabase/functions/admin-management/index.ts:17-30 | A 401 or 403 carries an error and no mutation. The body is read only after the gate passed. |
| AdminManagement.UpdateTargetsCaller | supabase/functions/admin-management/index.ts:37 | Every password update in any trace is for the authenticated caller's id. |
| AdminManagement.PreflightIndependent | supabase/functions/admin-management/index.ts:9 | Every `OPTIONS` request gets the same answer, whatever its headers and the backend: 200, CORS, no body, no call. |
| AdminManagement.MissingHeaderUnauthorized | supabase/functions/admin-management/index.ts:17-18 | With no usable header the answer is 401 `Unauthorized`, before any call. |
| AdminManagement.UnknownTokenUnauthorized | supabase/functions/admin-management/index.ts:23-24 | A token that resolves to no user gives 401 after exactly the one verification call. |
| AdminManagement.NonAdminForbidden | supabase/functions/admin-management/index.ts:26-27 | A falsy role check gives 403 after exactly the user and role calls: the body is not read and nothing is mutated. |
| AdminManagement.ShortPasswordRejected | supabase/functions/admin-management/index.ts:33-36 | A rejected `new_password` (falsy, or with a `length` below six after conversion) gives 400 with the gate steps only. |
| AdminManagement.NumericStringLengthRejected | supabase/functions/admin-management/index.ts:34-35 | An object whose `length` is a decimal digit string with value below six is rejected with 400, as JavaScript's `"3" < 6` converts the string. |
| AdminManagement.ChangePasswordUpdatesCaller | supabase/functions/admin-management/index.ts:37-39 | An accepted password (the check answered false) updates the caller's account. An upstream error gives 400 with its message; success gives `{success: true}`. |
| AdminManagement.ChangePasswordIgnoresUserId | supabase/functions/admin-management/index.ts:32-39 | Adding a `user_id` to a `change_password` body does not change the reply. |
| AdminManagement.CreateAdminRequiresCredentials | supabase/functions/admin-management/index.ts:43-46 | A falsy email or password gives 400 before the creation call. |
| AdminManagement.CreateAdminSequence | supabase/functions/admin-management/index.ts:47-55 | A creation error gives 400 with no role insert. After a creation the role is inserted for the new id; a role error gives 400 with no rollback, and success returns the new id. |
| AdminManagement.OtherActionUnknown | supabase/functions/admin-management/index.ts:58 | Any other action gives 400 `Unknown action`, with nothing attempted beyond the gate. |
| AdminManagement.ExceptionsBecome500 | supabase/functions/admin-management/index.ts:59-61 | A throw at any awaited call gives 500 with the thrown message. This includes destructuring a `null` body and a `new_password.length` whose conversion to a number throws. |
| JsValues.Truthy | supabase/functions/admin-management/index.ts:27 | JavaScript's ToBoolean, used by `!isAdmin` here and by `!new_password` (line 34) and the credential test (line 44); `AdminManagement.ForbiddenIff`, `PasswordCheck` and `CreateAdminRequiresCredentials` state what the endpoint does with it. |
| JsValues.Get | supabase/functions/admin-management/index.ts:32 | A property of the parsed body, `undefined` when absent or when the body is not an object; `AdminManagement.ChangePasswordIgnoresUserId` and `OtherActionUnknown` state what the endpoint reads through it. |
| JsValues.ToNumber | supabase/functions/admin-management/index.ts:34 | ECMAScript ToNumber on a JSON value: strings by `StringToNumber`, arrays through their string form, plain objects NaN, and a throw for an object with an own `toString`; `DecimalDigitsNumber`, `SingletonArrayLength` and `OwnToStringThrows` state it on whole families of inputs. |
| JsValues.StringToNumber | supabase/functions/admin-management/index.ts:34 | ECMAScript StringToNumber: trimmed, empty as 0, signed decimals with fraction and exponent, `Infinity`, and unsigned `0x`/`0o`/`0b`; `DecimalDigitsNumber` states it for every digit string. |
| JsValues.LengthBelow | supabase/functions/admin-management/index.ts:34 | `v.length < bound` throws exactly for `null`, `undefined`, and an object whose `length` cannot be converted to a number. |
| JsValues.DecimalDigitsNumber | supabase/functions/admin-management/index.ts:34 | Every non-empty string of decimal digits converts to the number it denotes. |
| JsValues.SingletonArrayLength | supabase/functions/admin-management/index.ts:34 | A `length` of `[n]` compares `n` itself, for every number and bound. |
| JsValues.OwnToStringThrows | supabase/functions/admin-management/index.ts:34 | A `length` that is an object with an own `toString` makes the comparison throw, for every such object and bound. |
| JsValues.StringLengthConverted | supabase/functions/admin-management/index.ts:34 | A `length` of `"3"` or `""` is below 6 and one of `"10"` is not. |
| JsValues.ArrayLengthConverted | supabase/functions/admin-management/index.ts:34 | A `length` of `[]` or `[5]` is below 6 and one of `[5, 5]` is not. |
| JsValues.ObjectLengthThrows | supabase/functions/admin-management/index.ts:34 | A `length` of `{toString: 1}` throws, and one of `{}` is not below 6. |
| JsValues.StringLengthCountsCodeUnits | supabase/functions/admin-management/index.ts:34 | Three characters beyond the basic multilingual plane are six code units, not below 6; `"abc"` is below 6. |
| AdminDashboard.Cells | src/pages/AdminDashboard.tsx:53-56 | Every report row has exactly as many cells as the header: nine. |
| AdminDashboard.AllCells | src/pages/AdminDashboard.tsx:53-56 | One cell row per report, in the reports' order. |
| AdminDashboard.HeadersPlain | src/pages/AdminDashboard.tsx:52 | The header has nine names, none with a comma, line feed or quote, so writing them unquoted is safe. |
| AdminDashboard.Escape | src/pages/AdminDashboard.tsx:57 | Doubles every double quote; `CollapseEscape` proves that collapsing undoes it. |
| AdminDashboard.Quote | src/pages/AdminDashboard.tsx:57 | Encloses the escaped cell in quotes; `UnquoteQuote` proves that the cell text is recovered. |
| AdminDashboard.QuoteAll | src/pages/AdminDashboard.tsx:56-57 | One written cell per cell, the i-th being the i-th cell quoted; `ReadRow` proves that they are read back as those cells, in order. |
| AdminDashboard.Lines | src/pages/AdminDashboard.tsx:55-57 | One line per report, the i-th being the i-th report's row; `ReadLines` proves that they are read back as every report's cells, in order. |
| AdminDashboard.ExportCsv | src/pages/AdminDashboard.tsx:51-57 | The plain header line followed by one line per report, joined by line feeds; `ExportRoundTrip` proves that reading it back gives the header and every report's cells. |
| AdminDashboard.CollapseEscape | src/pages/AdminDashboard.tsx:57 | Collapsing doubled quotes undoes doubling them. |
| AdminDashboard.UnquoteQuote | src/pages/AdminDashboard.tsx:57 | Stripping a written cell's outer quotes and collapsing its doubled quotes recovers the cell text (RFC 4180 section 2, rules 5 to 7). |
| AdminDashboard.ReadEscaped | src/pages/AdminDashboard.tsx:57 | The reader finds the closing quote of a written cell and returns the cell and what follows. |
| AdminDashboard.ReadLastField | src/pages/AdminDashboard.tsx:57 | A written cell at the end of a record is read back as that one cell. |
| AdminDashboard.ReadNextField | src/pages/AdminDashboard.tsx:57 | A written cell followed by a comma is read back in front of the fields after it. |
| AdminDashboard.ReadRow | src/pages/AdminDashboard.tsx:57 | A comma-joined row of written cells is read back as exactly those cells. |
| AdminDashboard.ReadLines | src/pages/AdminDashboard.tsx:57 | The line-feed-joined data lines are read back as every report's cells, in order. |
| AdminDashboard.ReadWritten | src/pages/AdminDashboard.tsx:57 | A plain header line followed by the data lines is read back as the header names and every report's cells. |
| AdminDashboard.ExportRoundTrip | src/pages/AdminDashboard.tsx:51-57 | Reading the export back gives exactly the nine headers and every report's cells, in order. The missing website or status name is the empty string. |
| AdminDashboard.FilterRows | src/pages/AdminDashboard.tsx:41-44 | A row is kept exactly when it is in the table and satisfies every filter of the query. |
| AdminDashboard.AnswerIsRange | src/pages/AdminDashboard.tsx:39-44 | When the filters mean the date range, the answer holds exactly the table's rows inside the range. |
| AdminDashboard.Dashboard.FetchReports | src/pages/AdminDashboard.tsx:34-47 | The query is newest first by `created_at`. It selects exactly the reports whose issue date lies in the inclusive, optional range. The list becomes the data, or empty, and loading ends. |
| AdminDashboard.Dashboard.constructor | src/pages/AdminDashboard.tsx:28-32 | No reports, no range, loading. |
| IntakeForm.TextOk | src/pages/Index.tsx:20 | The trimmed text has between one and the field's maximum UTF-16 code units; `Validate` ties it to the form's result. |
| IntakeForm.WhatsappOk | src/pages/Index.tsx:21 | The trimmed number is non-empty and is 8 to 20 UTF-16 code units, each a digit, `+`, `-` or JavaScript whitespace (`[0-9+\-\s]`); `WhatsappIgnoresOuterSpace` and `Validate` state its properties. |
| IntakeForm.SelectionOk | src/pages/Index.tsx:22-25 | A date or selection is present and non-empty; `Validate` ties it to the form's result. |
| IntakeForm.FieldOk | src/pages/Index.tsx:19-27 | The rule of each of the seven fields; `AllFieldsComplete` and `Validate` state its properties. |
| IntakeForm.Validate | src/pages/Index.tsx:19-27 | The form is valid exactly when every field rule holds; otherwise the errors are exactly the failing fields. The values handed on are the trimmed text fields and the untrimmed selections. |
| IntakeForm.AllFieldsComplete | src/pages/Index.tsx:19-27 | The schema has a rule for each of the seven fields. |
| IntakeForm.ValidateIdempotent | src/pages/Index.tsx:19-27 | Validating the schema's own output accepts it unchanged. |
| IntakeForm.DefaultsRejected | src/pages/Index.tsx:45 | The default form is rejected on all seven fields. |
| IntakeForm.WhatsappIgnoresOuterSpace | src/pages/Index.tsx:21 | Whitespace around a number does not change whether the number is accepted. |
| IntakeForm.Extension | src/pages/Index.tsx:83 | `split(".").pop()` of the file name; `ExtensionAfterLastDot` states what it is. |
| IntakeForm.ExtensionAfterLastDot | src/pages/Index.tsx:83 | The extension contains no dot and is the text after the last dot. It is the whole name when there is no dot, and empty when the name ends with a dot. |
| IntakeForm.RecordOf | src/pages/Index.tsx:91-100 | The record built from the schema's output and the image URL; `RecordFromForm` states what it carries. |
| IntakeForm.RecordFromForm | src/pages/Index.tsx:91-100 | The inserted record carries the trimmed text fields within their bounds (counted in UTF-16 code units), the selections as chosen, and the given image URL or null. |
| IntakeForm.IntakePage.ImageChange | src/pages/Index.tsx:66-76 | A file over 5 MB is refused and the previous image and preview stay. An accepted file is stored with its preview. With no selection nothing changes. |
| IntakeForm.IntakePage.Submit | src/pages/Index.tsx:78-113 | It is called with the schema's output for the current form. With an image, the upload path is `<stem>.<extension>`, and a failed upload stops before the insert. The record carries the public URL or null. Only a successful insert resets the form and the image; `submitting` ends false. |
| IntakeForm.IntakePage.constructor | src/pages/Index.tsx:39-46 | Default form, no image, no preview, not submitting. |
| AdminAccount.Bearer | src/pages/AdminAccount.tsx:28 | The header starts with `Bearer `. |
| AdminAccount.BearerCarriesToken | src/pages/AdminAccount.tsx:28 | Two tokens give the same header exactly when they are equal. |
| AdminAccount.BodyValue | src/pages/AdminAccount.tsx:31 | The JSON body the endpoint parses is an object with the same keys and string values. |
| AdminAccount.AccountPage.ChangePassword | src/pages/AdminAccount.tsx:37-45 | A password shorter than six UTF-16 code units is refused first, then a mismatched confirmation; neither makes a call. A call is made exactly otherwise, with body exactly `{action: "change_password", new_password}`. An error answer keeps the fields; any other readable answer clears both. |
| AdminAccount.AccountPage.CreateAdmin | src/pages/AdminAccount.tsx:47-54 | An empty email or password makes no call. Otherwise the body is exactly action, email and password. An error answer keeps the fields, success clears them, and the busy flag ends false on any readable answer. |
| AdminAccount.AccountPage.constructor | src/pages/AdminAccount.tsx:12-18 | Empty fields, not busy. |
| AdminAccount.ChecksAgreeWithEndpoint | src/pages/AdminAccount.tsx:38 | On strings, the endpoint rejects a password exactly when it is shorter than six code units, which is the page's check, and accepts it exactly otherwise. The credential checks also refuse the same inputs. |
| AdminAccount.SentPasswordReachesUpdate | src/pages/AdminAccount.tsx:41 | Once past the gate, the sent change updates the caller's own account with exactly the typed password. |
| AdminAccount.SentAdminReachesCreate | src/pages/AdminAccount.tsx:50 | Once past the gate, the sent creation creates a confirmed account with exactly the typed email and password. |
| ReferenceTable.Updated | src/pages/AdminStatuses.tsx:32 | An update by id keeps the length and the ids, and replaces the data exactly on the rows with that id. |
| ReferenceTable.Removed | src/pages/AdminStatuses.tsx:44 | A delete by id keeps only table rows without that id, and keeps every such row. |
| ReferenceTable.UpdatedValid | src/pages/AdminStatuses.tsx:32 | An update keeps ids unique and below the next id. |
| ReferenceTable.RemovedValid | src/pages/AdminStatuses.tsx:44 | A delete keeps ids unique and below the next id. |
| ReferenceTable.RemovedAbsent | src/pages/AdminStatuses.tsx:44 | Deleting an id no row has changes nothing. |
| ReferenceTable.RemovedAppend | src/pages/AdminStatuses.tsx:44 | A delete distributes over concatenation. |
| ReferenceTable.InsertThenDelete | src/pages/AdminStatuses.tsx:36 | Deleting the row just inserted gives the table back. |
| ReferenceTable.UpdatedIdempotent | src/pages/AdminStatuses.tsx:32 | Repeating an update changes nothing more. |
| ReferenceTable.Table.Select | src/pages/AdminStatuses.tsx:23 | The rows, or no data when the request fails. |
| ReferenceTable.Table.Insert | src/pages/AdminStatuses.tsx:36 | A refusal changes nothing. Otherwise one row with a fresh id is appended. Ids stay unique. |
| ReferenceTable.Table.Update | src/pages/AdminStatuses.tsx:32 | A refusal changes nothing; otherwise the rows become `Updated`. |
| ReferenceTable.Table.Delete | src/pages/AdminStatuses.tsx:44 | A refusal changes nothing; otherwise the rows become `Removed`. |
| ReferenceTable.Table.constructor | src/pages/AdminStatuses.tsx:16 | An empty, valid table. |
| AdminStatuses.ShownColor | src/pages/AdminStatuses.tsx:84 | The stored colour when it is non-empty, otherwise `#6b7280`. |
| AdminStatuses.StatusesPage.constructor | src/pages/AdminStatuses.tsx:16-20 | Empty list, closed dialog, no edit item, empty name, default colour. |
| AdminStatuses.StatusesPage.Fetch | src/pages/AdminStatuses.tsx:22-25 | The list becomes the table's rows, or empty on failure. The dialog is untouched. |
| AdminStatuses.StatusesPage.OpenAdd | src/pages/AdminStatuses.tsx:54 | No edit item, empty name, default colour, open. |
| AdminStatuses.StatusesPage.OpenEdit | src/pages/AdminStatuses.tsx:84 | Loads the item's name and its colour, with a null or empty colour shown as the default. The dialog opens. |
| AdminStatuses.StatusesPage.Save | src/pages/AdminStatuses.tsx:29-41 | A blank-after-trim name writes nothing and changes nothing. With an edit item it updates that id; otherwise it inserts. Either way the write carries the trimmed name and the colour. A refusal leaves everything as it was, the table's next id included. Success writes, advances the next id by one exactly for an insert, resets the dialog and reloads. |
| AdminStatuses.StatusesPage.Delete | src/pages/AdminStatuses.tsx:43-46 | A refused delete neither changes nor reloads the list. An accepted one removes the id and reloads. The table's next id never changes. |
| AdminWebsites.WebsitesPage.constructor | src/pages/AdminWebsites.tsx:15-18 | Empty list, closed dialog, no edit item, empty name. |
| AdminWebsites.WebsitesPage.Fetch | src/pages/AdminWebsites.tsx:20-23 | The list becomes the table's rows, or empty on failure. |
| AdminWebsites.WebsitesPage.OpenAdd | src/pages/AdminWebsites.tsx:52 | No edit item, empty name, open. |
| AdminWebsites.WebsitesPage.OpenEdit | src/pages/AdminWebsites.tsx:73 | Loads the item's name and opens. |
| AdminWebsites.WebsitesPage.Save | src/pages/AdminWebsites.tsx:27-39 | A blank-after-trim name writes nothing. An update uses the edited id; otherwise an insert. The write carries the trimmed name. A refusal changes nothing, the table's next id included. Success advances the next id by one exactly for an insert, resets the dialog and reloads. |
| AdminWebsites.WebsitesPage.Delete | src/pages/AdminWebsites.tsx:41-44 | A refused delete does not reload; an accepted one removes the id and reloads. The table's next id never changes. |
| Auth.UserOf | src/hooks/useAuth.tsx:46 | `session?.user ?? null`; `AuthProvider.InitSession` and `SessionChange` prove that the stored user is the session's. |
| Auth.Granted | src/hooks/useAuth.tsx:22-36 | `checkAdmin`'s decision: the truthiness of the answer, and false on an error or exception; `AuthProvider.InitSession` proves that the admin flag is this decision for the session's user only. |
| Auth.UseAuth | src/hooks/useAuth.tsx:96-100 | It throws exactly outside a provider, with the provider message. Otherwise it returns the provided context. |
| Auth.AuthProvider.constructor | src/hooks/useAuth.tsx:17-20 | No user, no session, not admin, loading, mounted. |
| Auth.AuthProvider.InitSession | src/hooks/useAuth.tsx:41-55 | After unmount nothing changes. Otherwise it stores the session and its user. The admin flag is the role check's truthy answer for that user only, and false without a user or on error. Loading ends. |
| Auth.AuthProvider.SessionChange | src/hooks/useAuth.tsx:61-71 | The same as `InitSession`, but loading is untouched. After unmount nothing changes. |
| Auth.AuthProvider.SignOut | src/hooks/useAuth.tsx:84-87 | Clears the admin flag; nothing else changes. |
| Auth.AuthProvider.Unmount | src/hooks/useAuth.tsx:73-76 | Only `mounted` changes. |
| ProtectedRoute.Guard | src/components/ProtectedRoute.tsx:5-20 | The guard decides in this order: while loading, the loading screen; with no user, a redirect to `/admin/login`; with a user who is not an admin, a redirect to `/`. The children render exactly for a loaded admin user. |
| ProtectedRoute.Render | src/components/ProtectedRoute.tsx:6 | Outside a provider it throws; otherwise it gives the guard's decision. |
| ProtectedRoute.LoadingHidesIdentity | src/components/ProtectedRoute.tsx:8-14 | While loading, every context shows the same loading screen. |
| ProtectedRoute.GuardOnlyAdmits | src/components/ProtectedRoute.tsx:16-19 | Once loading is over, the guard redirects exactly when there is no user or the user is not an admin, and only to the two known paths. |
| AppRoutes.DropTrailingSlashes | src/App.tsx:26-34 | The result is the path without its trailing slashes. |
| AppRoutes.Matches | src/App.tsx:26-34 | A path starting with `/` matches a route when they are equal ignoring case and trailing slashes; `TrailingSlashIgnored`, `RelativePathNotFound` and `RoutesDisjoint` state its properties. |
| AppRoutes.Resolve | src/App.tsx:26-34 | The element of the first matching route, or the not-found page; `ResolveSpec` states it without the order. |
| AppRoutes.Show | src/App.tsx:26-34 | The page shown, or the guard's screen for a guarded page; `AdminPageNeedsAdmin` proves that an admin page is shown only to a loaded admin. |
| AppRoutes.ResolveSpec | src/App.tsx:26-34 | A path falls to the not-found page exactly when no declared route matches it. Otherwise it shows a matching route's element. |
| AppRoutes.ResolveFromSpec | src/App.tsx:26-34 | The same, for the routes from a given position on. |
| AppRoutes.RoutesDisjoint | src/App.tsx:27-33 | No path matches two declared routes. |
| AppRoutes.SameCaseTransitive | src/App.tsx:27-33 | Two paths that both equal a third, ignoring case, equal each other, ignoring case. |
| AppRoutes.RoutePatternsDistinct | src/App.tsx:27-33 | The declared paths differ, even ignoring case and trailing slashes. |
| AppRoutes.PatternsNormal | src/App.tsx:27-33 | Only the root path ends in a slash. |
| AppRoutes.ResolveMatched | src/App.tsx:27-33 | A path that matches a declared route shows that route's element. |
| AppRoutes.ResolveFirstMatch | src/App.tsx:27-33 | The first matching route from a position decides. |
| AppRoutes.SelfMatch | src/App.tsx:27-33 | An absolute path matches itself. |
| AppRoutes.DeclaredPaths | src/App.tsx:27-33 | Each declared path, as written, shows its own element. So `/` shows the intake form and `/admin/login` the login page, both unguarded, and each admin path shows its page inside the guard. |
| AppRoutes.TrailingSlashIgnored | src/App.tsx:26-34 | A trailing slash does not change the page shown. |
| AppRoutes.SameMatchesSameResolve | src/App.tsx:26-34 | Paths that match the same routes resolve alike. |
| AppRoutes.RelativePathNotFound | src/App.tsx:34 | A path that does not start with `/` shows the not-found page. |
| AppRoutes.AdminPagesGuarded | src/App.tsx:27-34 | A path's element is guarded exactly when its page is an admin page. |
| AppRoutes.TableGuardsAdminPages | src/App.tsx:27-33 | Each declared route is guarded exactly when its page is an admin page. |
| AppRoutes.AdminPageNeedsAdmin | src/App.tsx:29-33 | An admin page is shown only after loading, to an admin user. |
| JsText.Trim | src/pages/Index.tsx:20 | The result is never longer than the input; `TrimSlice` and `TrimEnds` prove that it is a slice of it with no whitespace at either end. |
| JsText.TrimStartShape | src/pages/Index.tsx:20 | Trimming the start removes a whitespace prefix and leaves a suffix that is empty or starts with non-whitespace. |
| JsText.TrimEndShape | src/pages/Index.tsx:20 | Trimming the end removes a whitespace suffix and leaves a prefix that is empty or ends with non-whitespace. |
| JsText.TrimEnds | src/pages/Index.tsx:20 | A trimmed string has no whitespace at either end. |
| JsText.TrimSlice | src/pages/Index.tsx:20 | The trimmed string is a slice with only whitespace on either side of it. |
| JsText.TrimIdempotent | src/pages/Index.tsx:20 | Trimming twice is trimming once. |
| JsText.TrimEmptyIff | src/pages/AdminStatuses.tsx:30 | A string trims to empty exactly when it is all whitespace. |
| JsText.TrimPadded | src/pages/Index.tsx:21 | Whitespace added around a string is what trimming removes. |
| JsText.TrimFixed | src/pages/Index.tsx:21 | A string with no whitespace at its ends trims to itself. |
| JsText.JsLength | src/pages/AdminAccount.tsx:38 | The UTF-16 length: between the number of characters and twice it, zero only for the empty string. |
| JsText.JsLengthBasic | src/pages/Index.tsx:21 | A string of characters in the basic multilingual plane has as many code units as characters. |
| JsText.JsLengthAppend | src/pages/Index.tsx:20 | The length of a concatenation is the sum of the lengths. |
| JsText.SurrogatePairLength | src/pages/AdminAccount.tsx:38 | A character beyond the basic multilingual plane counts as two code units. |
| JsText.LexLeqTotal | src/pages/AdminDashboard.tsx:41-42 | Code-unit order is total. |
| JsText.LexLeqTrans | src/pages/AdminDashboard.tsx:41-42 | Code-unit order is transitive. |
| JsText.IndexOf | src/pages/Index.tsx:83 | The position is within the string, and holds the character unless it is the length. |
| JsText.IndexOfFirst | src/pages/Index.tsx:83 | The character does not occur before the position found, so it is the first occurrence. |
| JsText.Split | src/pages/Index.tsx:83 | At least one piece; `SplitJoin`, `NoSeparator` and `SplitLast` state what the pieces are. |
| JsText.Join | src/pages/Index.tsx:83 | Pieces joined by the separator; `SplitJoin` proves that splitting undoes it. |
| JsText.LastPart | src/pages/Index.tsx:83 | The last piece of a split; `SplitLast` states what it is. |
| JsText.SplitJoin | src/pages/Index.tsx:83 | Splitting a join at its separator gives the pieces back when no piece holds the separator. |
| JsText.NoSeparator | src/pages/Index.tsx:83 | A string without the separator has it at no position and splits into itself alone. |
| JsText.SplitLast | src/pages/Index.tsx:83 | The last piece is the suffix after the last separator, or the whole string when there is no separator. |

## Left out

- Backend internals are not modelled: the Supabase session, token verification, `has_role`,
  account administration, table queries, storage and `fetch`. Each call's answer is an input.
- The endpoint's environment (`Deno.env`) is assumed configured. With a missing URL or key,
  `createClient` throws and the catch answers 500; that path is not modelled, and the two client
  constructions are not modelled otherwise.
- AdminAccount.AccountPage.ChangePassword and AdminAccount.AccountPage.CreateAdmin take the
  access token as an input, so the session read (`getSession`) is assumed to return. If it
  throws, no request is sent, but the model still records the call. The page state and notice
  it leaves are the same as for an unreadable reply.
- `AdminManagement.Handle` reads the body only by its parsed value. The message of the
  `TypeError` raised when a `null` body is destructured is an input.
- Date formatting with `date-fns` is not modelled. Dates are the `yyyy-MM-dd` text, or the
  `Date` picked in the form.
- The random upload name (`Date.now()` and `Math.random()`) is not modelled. It is the `stem`
  parameter of `IntakeForm.IntakePage.Submit`.
- The CSV `Blob`, the object URL and the download link are not modelled; `ExportCsv` stops at
  the text.
- Toasts are not modelled, apart from those whose content the account page derives (its
  `Notice`). JSX rendering and React re-render timing are not modelled.
- Asynchronous interleaving is not modelled. Events are taken one at a time.
  `Auth.AuthProvider.InitSession` and `SessionChange` take the session lookup and the role
  check as one step. So the second `mounted` test of `initSession` never sees a change, and a
  session event that arrives during the role check is not modelled.
- The reload after a save or delete is taken as completing at once. It is not awaited in the
  source.
- `Auth.AuthProvider.SignOut` does not model `signOut()` throwing. In that case the admin flag
  would stay set.
- A session without a user is not modelled: a session always carries its user.
- A Dafny character is a Unicode scalar value, not a UTF-16 code unit. Every length the source
  compares is taken with `JsText.JsLength`, which counts a character beyond the basic
  multilingual plane as two code units. A string holding a lone surrogate, which JSON text
  can carry as `\uD800`, cannot be represented. `JsText.LexLeq` orders by code point; it is
  used only on ASCII dates, where both orders agree. Percent-decoding of browser paths is not
  modelled.
- JsValues.ToNumber: numbers are exact reals, so a decimal string is not rounded to the
  nearest double. A `length` such as `"5.99999999999999999999"`, which JavaScript rounds to 6,
  is below 6 here. Parsed JSON has no callable members, so an object with its own `toString`
  key makes the conversion throw, and every other object converts to `NaN`.
- Database ids are natural numbers assigned in insertion order; the source uses UUIDs. Rows
  are kept in insertion order, which stands for `created_at` order. Ties in
  `AdminDashboard.IsAnswer` may come in any order.
- The report list's own order is stated only as `SortedBy` on the answer. It is not produced
  by a sort.
- The dashboard's `selected` report and its detail dialog are not modelled. They have no rule.
- The intake form's loading of websites, statuses and site settings is not modelled
  (`src/pages/Index.tsx:48-64`). It only fills the select options and the page title.
- `list_admins` and `delete_admin` are not modelled: they do not appear in the endpoint's
  code.
- `supabase/functions/create-admin/index.ts` is not part of this model. It is two pass-through
  backend calls with no check; the endpoint's `create_admin` covers the same sequence.
- The following files are not part of this model, because they are layout, navigation, DOM
  updates, or storage plumbing with trivial defaults: `src/pages/AdminSettings.tsx`,
  `src/pages/AdminLogin.tsx`, `src/components/AdminLayout.tsx`,
  `src/components/form/SuccessScreen.tsx`, `src/hooks/useFavicon.tsx` and the not-found page.
- The zod and regular-expression engines are not modelled. Each rule is a predicate over the
  string, with the JavaScript `\s` set written out.
