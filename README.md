# Appointment booking server: a verified model of its request logic

The server (`server.py`) is a small HTTP application. Patients post a
booking form to `/submit`. An admin logs in at `/admin-login` and sees every
booking in a table. This project models the deterministic core of that
handler in Dafny and proves what it does:

- `Text`: the Python string operations the handler uses, written out on
  `seq<char>`: `strip()` (with Python's whitespace set), `replace()`, `join()`.
  It also has a `split()` that serves as the reference definition for
  `replace()`.
- `Escape`: `html_escape`, the chain of five `replace` calls with `&` first.
  It is proved equal to a character-by-character rewrite. It has an inverse
  decoder.
- `Appointments`: the seven-field booking record. Its slot key is
  (doctor type, date, slot). `NoDoubleBooking` is the store invariant.
- `Form`: the parsed POST body as `parse_qs` returns it, and the `get` helper.
- `Static`: the content type chosen from a static file's extension.
- `Template`: the replace loop of `render_template` over an already loaded
  template, and `str()` of the integer it is given.
- `Rows`: `build_rows`, the dashboard's row markup, with a decoder showing
  that the markup keeps every field of every booking, in order.
- `Server`: the class `AppointmentStore`. Its `appointments` field holds what
  the data file holds. Its methods are `/admin-login`, `/submit` and the
  POST dispatch.

Template files are passed in as strings, and the template context is a
sequence of (key, value) pairs in dict order. Substitution is sequential:
each entry rewrites the text left by the entries before it. So a value
inserted by one entry can be rewritten by a later one. `SubstituteIsSequential`
shows a case. Placeholder substitution is therefore not a one-pass
replacement of every `{{key}}` in the original template. On the success page
the seven booking fields are substituted without escaping. The dashboard
escapes every cell.

## Model

| member | source | states |
|---|---|---|
| `Text.Strip` | server.py:123 | the result is the input with only whitespace removed, from both ends; it neither starts nor ends with whitespace; it is empty exactly when the input is all whitespace |
| `Text.StripTrimmed` | server.py:123 | text without surrounding whitespace is returned unchanged |
| `Text.StripIdempotent` | server.py:123 | stripping twice equals stripping once |
| `Text.ReplaceAll` | server.py:36 | a string in which the pattern does not occur is returned unchanged |
| `Text.Join` | server.py:64 | `sep.join(parts)`: the parts in order, with the separator between consecutive parts; `SplitJoin` and `ReplaceIsSplitJoin` give its meaning, and `BuildRows` joins the rows with it |
| `Text.ReplaceIsSplitJoin` | server.py:36 | `s.replace(p, r)` equals `r.join(s.split(p))`: the text is cut at the occurrences of `p`, and `r` goes in every cut |
| `Text.SplitJoin` | server.py:36 | joining the pieces of a split with the pattern gives back the original text |
| `Text.SplitPiecesFree` | server.py:36 | no piece between the replaced occurrences contains the pattern |
| `Text.SplitCutsLeftmost` | server.py:36 | the first cut is made at the leftmost occurrence: the pattern does not occur before the first cut, and it does occur at the first cut when there is one |
| `Text.SplitAfterFirstCut` | server.py:36 | the pieces after the first cut are the split of the text that follows the first occurrence, so every later cut is again made at the leftmost occurrence of what remains |
| `Escape.HtmlEscape` | server.py:39-45 | `html_escape`: the five `replace` calls, `&` first; its meaning is given by `HtmlEscapeIsCharwise`, `HtmlEscapeSafe`, `HtmlEscapePlain` and `HtmlEscapeRoundTrip` |
| `Escape.HtmlEscapeIsCharwise` | server.py:39-45 | the replace chain equals a per-character rewrite: each of the five special characters becomes its entity, and every other character is kept, in order; entities added by a step are not escaped again by a later step |
| `Escape.HtmlEscapeSafe` | server.py:39-45 | the output has no raw `<`, `>`, `"` or `'`, and every `&` in it begins `&amp;`, `&lt;`, `&gt;`, `&quot;` or `&#39;` |
| `Escape.HtmlEscapePlain` | server.py:39-45 | a value with none of the five special characters is returned unchanged |
| `Escape.HtmlEscapeRoundTrip` | server.py:39-45 | decoding the five entities recovers the value, so escaping loses nothing |
| `Form.Get` | server.py:122-123 | the first value sent for the key, stripped; `""` when the key is absent; never starts or ends with whitespace |
| `Static.ContentType` | server.py:79-84 | `text/css` exactly for `.css`, `image/jpeg` exactly for `.jpg` or `.jpeg`, `image/png` exactly for `.png`, no header otherwise; the tests exclude each other |
| `Template.Substitute` | server.py:35-36 | the context entries applied in dict order, each replacing every `{{key}}` of the text left by the ones before; its meaning is given by `RenderTemplate`, `SubstituteNoPlaceholders`, `SubstituteAppend`, `SubstituteOne` and `SubstituteIsSequential` |
| `Template.RenderTemplate` | server.py:32-37 | the loop's result equals applying the context entries one after another, each replacing every `{{key}}` of the current text by its value |
| `Template.SubstituteNoPlaceholders` | server.py:35-36 | a template in which no key's placeholder occurs is returned as is |
| `Template.SubstituteAppend` | server.py:35-36 | entries apply in order: the context can be split anywhere, and the second part applied to the result of the first |
| `Template.SubstituteOne` | server.py:35-36 | one entry cuts the template at its placeholder and puts the value in every cut; joining the pieces with the placeholder gives back the template |
| `Template.SubstituteIsSequential` | server.py:35-36 | for any keys `a`, `b` and value `v`, the context `a` ↦ `{{b}}`, `b` ↦ `v` turns `{{a}}` into `v`: a value inserted by one entry is rewritten by a later entry |
| `Template.Decimal` | server.py:133 | `str(n)` is a non-empty string of decimal digits with no leading zero |
| `Template.DecimalRoundTrip` | server.py:133 | the digits of `str(n)` denote `n` |
| `Rows.Cell` | server.py:55-61 | one `<td>` cell holding the escaped value; `ParseCellOf` shows that it reads back as the value |
| `Rows.Row` | server.py:53-62 | one `<tr>` row of seven cells in the order of `Fields`; `ParseRowOf` shows that it reads back as its booking |
| `Rows.RowsMarkup` | server.py:47-64 | what `build_rows` returns: the fixed row for no bookings, otherwise the rows joined with newlines; `BuildRows` and `DecodeRowsMarkup` give its meaning |
| `Rows.BuildRows` | server.py:47-64 | the loop builds one row per booking, in order, joined by newlines; the fixed "No appointments yet" row is returned exactly when there are no bookings |
| `Rows.ParseRowOf` | server.py:53-63 | a row reads back as its booking: seven `<td>` cells in the order patient name, age, gender, phone, doctor type, date, slot, each holding the escaped field |
| `Rows.DecodeRowsMarkup` | server.py:47-64 | the row markup determines the store: decoding it gives back every booking with every field, in order; no field value can add or split a cell |
| `Appointments.SameSlot` | server.py:166 | two bookings share doctor type, date and slot; `AppendFreeSlot` and `Submit` use it as the slot key |
| `Appointments.AppendFreeSlot` | server.py:164-183 | appending a booking whose (doctor type, date, slot) is free keeps the store free of double bookings |
| `Server.ReadBooking` | server.py:149-155 | the booking built from the seven stripped form fields, each read with `get`; `Submit` stores exactly this booking |
| `Server.Complete` | server.py:157 | every one of the seven fields is non-empty; `Submit` answers 400 exactly when it fails |
| `Server.SlotTaken` | server.py:164-171 | some stored booking has the same doctor type, date and slot; `Submit` answers 409 exactly when the booking is complete and this holds |
| `Server.SuccessContext` | server.py:173-184 | the success page's context: the seven fields under their keys, in the order of `new_appt`; `Submit` renders the success template with it |
| `Server.DashboardContext` | server.py:132-135 | the dashboard's context: `total` and `rows`, in that order; `DashboardShowsStore` gives its meaning |
| `Server.LoginResponse` | server.py:126-145 | what `/admin-login` answers: 200 with the rendered dashboard for the stripped `admin`/`admin123` pair, otherwise 401 and the invalid-login fragment; `AdminLogin` and `HandlePost` return it |
| `Server.SubmitOutcome` | server.py:148-189 | what `/submit` answers and the bookings stored after it: 400, 409 or 200 with the booking appended; `SubmitOutcomeKeepsStore` gives its meaning, and `Submit` and `HandlePost` return it |
| `Server.DashboardShowsStore` | server.py:131-135 | the dashboard context's `total` denotes the number of bookings, and its `rows` decode to exactly the stored bookings |
| `Server.SubmitOutcomeKeepsStore` | server.py:157-183 | a submission's outcome stores exactly one booking more, the submitted one, when its status is 200, and leaves the store unchanged otherwise; it never creates a double booking |
| `Server.AppointmentStore.constructor` | server.py:17-21 | a new data file holds no bookings |
| `Server.AppointmentStore.AdminLogin` | server.py:126-145 | 200 exactly when the trimmed username is `admin` and the trimmed password is `admin123`; the body is then the dashboard template rendered with the count and the rows; otherwise 401 and the invalid-login fragment; the store is not modified; the response is the login outcome `LoginResponse` that `HandlePost` reports |
| `Server.AppointmentStore.Submit` | server.py:148-189 | 400 exactly when a trimmed field is empty; 409 exactly when all fields are present and a stored booking has the same triple; the store is unchanged in both cases; otherwise 200, the store gains exactly the trimmed booking at its end, and the success page is rendered with the booking's fields; a store without double bookings stays without them; response and new store together are the outcome `SubmitOutcome` that `HandlePost` reports |
| `Server.AppointmentStore.HandlePost` | server.py:114-191 | `/admin-login` returns exactly what the login handler answers for the form and the stored bookings, and leaves the store alone; `/submit` returns the submit handler's response and leaves the store as that handler does (the booking appended on 200, unchanged otherwise); any other path gets 404 and leaves the store alone; a store without double bookings stays without them |

## Left out

- HTTP plumbing (`HTTPServer`, `BaseHTTPRequestHandler`, response and header writes, the start-up in `__main__`). This is I/O. A response is modelled as a status and a body.
- File persistence (`read_file`, `ensure_data_file`, `load_appointments`, `save_appointments`) and JSON encoding. The store is the `appointments` field, and the constructor stands for the freshly created empty file. The save/load round trip is therefore not modelled.
- Records in the data file that lack a key or hold a non-string value (a `KeyError`, or `str()` of a number in `html_escape`). Bookings are typed records with seven strings.
- `urlparse`, `parse_qs` and the Content-Length body read. These are library code. The form is given as a map whose value lists are non-empty, as `parse_qs` produces them.
- The static-file route apart from the content type: existence checks, path joining, the file read, and the lack of a guard against `..` in the path. This is filesystem I/O.
- The GET page routes `/`, `/home`, `/book` and `/admin`, which each only send a template file unchanged, and the GET 404 for any other path, which sends the error "Page not found". None of them reads or changes the store.
- Reading template files and the final UTF-8 encoding in `render_template`. The template text is a parameter.
- `Text.ReplaceAll`: requires a non-empty pattern. Python's behaviour for an empty pattern is not modelled because the handler never uses one.
- The body of the 404 response is the message passed to `send_error`. The HTML page `http.server` wraps around it is not modelled.
- Concurrency: the server handles one request at a time, and every method here runs to completion.
