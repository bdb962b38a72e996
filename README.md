# Mergington High School activity sign-up: a Dafny model

The system lists extracurricular activities, signs a student (an email) up
for one, and unregisters a student. The server holds a fixed map from
activity name to an activity record with `description`, `schedule`,
`max_participants` and `participants`. A browser front end renders one card
per activity and escapes every interpolated string with `escapeHtml`.

This project models three pieces.

- `escape.dfy`, module `HtmlEscape`: `escapeHtml` as written. It is a chain of
  five global single-character replacements, `&` first, producing the
  character references of the HTML Living Standard, section 13.1.4. The chain
  is proved equal to a per-character mapping. Proved about it: no `<`, `>`,
  `"` or `'` survives; every `&` starts one of the five references; it
  distributes over concatenation; it grows each special character by a fixed
  amount; it leaves exactly the strings without special characters unchanged;
  and decoding the five references gives the input back, so escaping is
  injective. That decoding is the reference decoding the HTML parser does
  when the card's markup is parsed, not the whole of the parser (see
  "Left out").
- `roster.dfy`, module `Roster`: the activity roster. `SignUp` and
  `Unregister` are pure specifications from a roster and a request to an
  outcome (`Ok(message) | NotFound | AlreadyRegistered | NotRegistered`) and
  the roster afterwards. The class `RosterStore` holds the roster as a mutable
  `map` field. Its `Join` and `Leave` methods update the map in place and are
  proved to agree with the two functions and to keep the roster invariant:
  exactly the nine seed activities, and no email listed twice in one activity.
  The lemmas restate the test suite's assertions for every roster and email.
- `card.dfy`, module `ActivityCard`: the card's pure computations. These are
  the spots-left figure, the choice between the counted participant list and
  the "no participants" paragraph, and the escaped values a card
  interpolates. The lemmas tie them to the roster and to the escaping.

Two modelling choices rest on the front end and the tests:
- Participants form an ordered list, as the front end consumes it through
  `participants.length` and `participants.map` (`src/static/app.js:34-42`).
  Uniqueness is kept as an invariant, since the tests expect a duplicate
  sign-up to be rejected (`tests/test_app.py:87-104`).
- Sign-up has no capacity check. No test expects a full activity to refuse a
  sign-up, and the front end computes the spots left as a plain difference
  (`src/static/app.js:32`) and shows a negative count as it is.
  `ActivityCard.FullActivityStillAccepts` proves the model has no cap.

## Model

| member | source | states |
|---|---|---|
| HtmlEscape.ReplaceAll | src/static/app.js:10-14 | one global `.replace(/c/g, rep)` pass: a string without `c` is returned unchanged, and a replacement without `c` leaves no `c` behind |
| HtmlEscape.EscapeChar | src/static/app.js:10-14 | the reference each character becomes: it differs from the character exactly for the five special characters, and starts with `&` exactly for them |
| HtmlEscape.EscapeHtmlOfChar | src/static/app.js:9-14 | on a single character the five chained passes produce exactly that character's reference |
| HtmlEscape.ReplaceAllNotShorter | src/static/app.js:10-14 | a pass whose replacement is at least one character long never shortens its input |
| HtmlEscape.EscapeHtml | src/static/app.js:8-15 | the helper as written, five chained passes with `&` first; its output is never shorter than its input |
| HtmlEscape.EscapeHtmlAppend | src/static/app.js:9-14 | `escapeHtml(a + b) == escapeHtml(a) + escapeHtml(b)`: the five chained passes distribute over concatenation |
| HtmlEscape.ChainIsPerCharacter | src/static/app.js:9-14 | the chain of five replacements, `&` first, equals mapping each character on its own |
| HtmlEscape.NoMarkupCharacters | src/static/app.js:10-14 | the output contains no `<`, `>`, `"` or `'` |
| HtmlEscape.AmpersandsAreReferences | src/static/app.js:10-14 | every `&` in the output begins `&amp;`, `&lt;`, `&gt;`, `&quot;` or `&#039;` |
| HtmlEscape.EscapedLength | src/static/app.js:10-14 | output length = input length + 4 per `&`, 3 per `<` and `>`, 5 per `"` and `'` |
| HtmlEscape.UnchangedIffSafe | src/static/app.js:9-14 | a string is returned unchanged if and only if it contains none of `& < > " '` |
| HtmlEscape.Unescape | src/static/app.js:46-52 | decoding of the five references that parsing the card's `innerHTML` performs; for values without CR or NUL, what `dataset.email` and `dataset.activity` return at src/static/app.js:114-115; never longer than its input |
| HtmlEscape.RoundTrip | src/static/app.js:8-15 | decoding the helper's output gives the original string back |
| HtmlEscape.EscapeInjective | src/static/app.js:8-15 | two strings escape to the same output if and only if they are equal |
| Roster.StatusCode | tests/test_app.py:58-126 | 200 exactly for success, 404 exactly for an unknown activity, 400 exactly for a duplicate sign-up or an absent email |
| Roster.Detail | tests/test_app.py:67-126 | the error detail contains "Activity not found" for an unknown activity and "not registered" for an absent email |
| Roster.SignupMessage | tests/test_app.py:76-85 | the sign-up confirmation contains the email (and the activity name) |
| Roster.UnregisterMessage | tests/test_app.py:128-138 | the unregister confirmation contains the email (and the activity name) |
| Roster.RemoveFirstMultiset | tests/test_app.py:161-171 | removing an email from a list removes exactly one occurrence of it: the multiset loses `{e}` |
| Roster.RemoveFirstAbsent | tests/test_app.py:161-171 | removing an email that is not in the list returns the list unchanged |
| Roster.RemoveFirstKeepsOrder | tests/test_app.py:161-171 | removal cuts out the first occurrence of the email and keeps the others in their order |
| Roster.RemoveFirstKeepsDistinct | tests/test_app.py:161-171 | on a list without duplicates, removal keeps it duplicate-free and the removed email is gone |
| Roster.RemoveFirstAppended | tests/test_app.py:144-171 | removing an email that was just appended to a list not holding it gives the list back |
| Roster.SignUp | tests/test_app.py:55-104 | NotFound iff the activity is unknown; AlreadyRegistered iff the email is listed; on success the email is listed, the message contains it, only that activity's participants change and they gain exactly that email; on failure nothing changes |
| Roster.Unregister | tests/test_app.py:107-138 | NotFound iff the activity is unknown; NotRegistered iff the email is not listed; on success the message contains the email, only that activity's participants change and they lose exactly one copy of it; on failure nothing changes |
| Roster.UnknownActivityNotFound | tests/test_app.py:67-117 | sign-up and unregister on an unknown activity both fail NotFound (404, "Activity not found") for every email |
| Roster.AbsentEmailNotRegistered | tests/test_app.py:119-126 | unregistering an unlisted email fails NotRegistered (400, detail containing "not registered") |
| Roster.StepsPreserveWellFormed | tests/test_app.py:87-104 | sign-up and unregister keep the nine activities and keep every participant list duplicate-free |
| Roster.SignUpTwiceRejected | tests/test_app.py:87-104 | after a successful sign-up, signing the same email up for the same activity again fails AlreadyRegistered (400) |
| Roster.SignUpThenUnregister | tests/test_app.py:144-171 | after a successful sign-up the email is listed; unregistering it then succeeds and restores the roster exactly |
| Roster.UnregisterRemovesEmail | tests/test_app.py:161-171 | on a well-formed roster, after a successful unregister the email is no longer listed and a second unregister fails NotRegistered |
| Roster.RosterStore.constructor | tests/test_app.py:27-43 | the store starts from a seed holding exactly the nine named activities, with no duplicate participant in any of them |
| Roster.RosterStore.ListActivities | tests/test_app.py:20-52 | the listing is the whole roster, and its names are exactly the nine seed activities |
| Roster.RosterStore.Join | tests/test_app.py:55-104 | updates the roster in place as `SignUp` specifies, keeps the invariant, and lists the email on success |
| Roster.RosterStore.Leave | tests/test_app.py:107-138 | updates the roster in place as `Unregister` specifies, keeps the invariant, and leaves the email unlisted on success |
| ActivityCard.SpotsLeft | src/static/app.js:32 | the availability figure is negative exactly when the roster exceeds capacity, zero exactly when it is full, and never above capacity |
| ActivityCard.RenderItem | src/static/app.js:38-39 | an item shows the email it carries; its `data-email` and `data-activity` decode to the email and activity name and contain no `<`, `>`, `"` or `'` |
| ActivityCard.RenderCard | src/static/app.js:46-52 | heading, description and schedule decode to the activity's name, description and schedule; the figure is capacity minus participants; the empty state is shown exactly for an empty roster |
| ActivityCard.RenderParticipants | src/static/app.js:34-44 | the empty-state paragraph exactly for an empty roster; otherwise a list whose count is the number of participants, with one item per participant |
| ActivityCard.ItemsDecodeToRoster | src/static/app.js:37-42 | item `i` of the list, in roster order, decodes to participant `i` (its `data-email` and its visible text) and to the activity name (its `data-activity`) |
| ActivityCard.DistinctParticipantsDistinctItems | src/static/app.js:37-42 | distinct participants get distinct `data-email` attributes |
| ActivityCard.CardTextIsInert | src/static/app.js:46-51 | the heading, description, schedule and every item's data attributes contain no `<`, `>`, `"` or `'` |
| ActivityCard.SpotsFollowRoster | src/static/app.js:32 | a successful sign-up lowers the spots-left figure by one; a successful unregister raises it by one |
| ActivityCard.FullActivityStillAccepts | src/static/app.js:32 | a full activity still accepts a new email, and its spots-left figure then goes negative |
| ActivityCard.SignedUpEmailIsListed | src/static/app.js:34-44 | after a successful sign-up the card shows the list, with a count one higher and an item that decodes to the new email |

## Left out

- The server's route handlers and seed data (`src/app.py`) are not part of this model. The roster store's behaviour is taken from the assertions of `tests/test_app.py`.
- Seed descriptions, schedules, capacities and participant lists are not modelled. The store's constructor takes the seed as a parameter and requires only the nine names and duplicate-free lists.
- Roster.SignupMessage: the wording of the confirmations, beyond containing the email and the activity name, is this model's own choice. The tests check only that the email appears.
- Roster.Detail: the AlreadyRegistered detail text is this model's own choice. The tests check only its 400 status.
- HTTP transport, routing, status-code framing and the root redirect to `/static/index.html`. These are web-framework behaviour; only the status-code mapping of the outcomes is kept.
- DOM manipulation, `fetch`, `encodeURIComponent` URL building, form reset, message display and `setTimeout` hiding in `src/static/app.js`. These are UI and I/O. A card is modelled as the record of the values it interpolates, not as markup text.
- HtmlEscape.Unescape: decodes only the five references the helper writes. The HTML parser also turns CR and CRLF into LF, in attribute values and in text alike; it turns NUL into U+FFFD in attribute values and drops it from text content. That normalisation is not modelled. So for a value holding CR or NUL, the browser's `dataset` read-back and the visible text differ from `Unescape`, and the decode guarantees of `ActivityCard.RenderItem`, `ActivityCard.RenderCard`, `ActivityCard.ItemsDecodeToRoster` and `ActivityCard.SignedUpEmailIsListed` describe only values without CR or NUL.
- `String(str)` conversion of non-string values in `escapeHtml`. Every value the card escapes is a string.
- The `details.participants &&` guard in the empty-state test. Participants are always a list here, and a missing list would already fail at the spots-left line.
- Concurrent requests mutating the shared roster. The model is sequential.
- `tests/conftest.py`: a test-client fixture and import-path setup only.
