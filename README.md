# Highlight-to-webhook browser extension: payload builder and per-page notes

This project models, in Dafny, the two pieces of logic inside the extension:

- **The webhook payload builder** (background.js). `processTemplate` walks a parsed JSON template.
  In every string leaf it replaces `{{text}}`, `{{title}}`, `{{labels}}`, `{{label}}` and `{{url}}`,
  in that order, each one globally. `sendToWebhook` builds the flat record `{text, title, labels, url}`
  from a plain selection or from a structured note. It substitutes that record into the configured
  template, or posts a fixed four-key body when the template text does not parse.
  `getWebhookConfig` supplies the default endpoint and template.
- **The per-page note store** (`NoteManager` in content.js). It holds the notes of one page in a
  list mirrored to local storage under `"notes_" + url`. It supports adding (with label parsing),
  deleting after confirmation, lookup by id for copy and send, the newest-first display order, the
  badge text, and the relative-time labels of `formatTime`.

Modules:

- `Wrappers`: Option and Result.
- `Strings`: literal global replacement, split/join, ECMAScript `trim`, and decimal rendering of counts.
- `Template`: `processTemplate`, with the JSON value tree as a datatype.
- `Webhook`: configuration defaults, the template data, the request body and its fallback, the
  outcome of the POST, and the message listener.
- `Notes`: the note record and the pure helpers of content.js.
- `NoteStore`: the `NoteManager` class, plus a `Storage` class standing for the extension's local storage.

Points of the code's behaviour worth knowing:

- A note's labels are sent joined by `", "` (comma and space).
  `CustomTemplateExample` proves the resulting `"todo, home"`.
- The five replacement passes are sequential, not independent. A field value that contains a later placeholder is
  rewritten by the later pass (`PassesAreSequential`). Substituting twice is therefore not always the
  same as substituting once (`SubstituteNotIdempotent`). Idempotence and "no placeholder left" are
  proved only when the literal template text and the field values contain no `{`
  (`SubstituteConsumesPlaceholders`, `ProcessTemplateConsumesPlaceholders`).
- `processTemplate` copies an object member by assignment, so a member keyed `__proto__` reaches
  the inherited prototype setter and is not in the posted body (`ProtoMemberDropped`).
- `deleteNote` saves the list after a confirmed delete even when no note has the id; the list itself
  is then unchanged (`WithoutAbsentId`).

## Model

| member | source | states |
|---|---|---|
| Strings.JoinWith | content.js:479 | `labels.join(', ')`; `JoinWithCons` unfolds it and `ParseJoinedLabels` inverts it on clean labels |
| Strings.ReplaceAll | background.js:45-49 | One global literal `replace`; what it does is stated by `ReplaceAllIsSplitJoin`, `SplitPiecesLackToken`, `ReplaceAllAbsent` and `ReplaceAllSelf` |
| Strings.ReplaceAllIsSplitJoin | background.js:45-49 | A global literal `replace` equals splitting on the token and joining the pieces with the replacement |
| Strings.SplitPiecesLackToken | background.js:45-49 | No piece between occurrences still contains the token: a global replace consumes every occurrence |
| Strings.ReplaceAllAbsent | background.js:45-49 | A string without the placeholder token comes back unchanged from that pass |
| Strings.ReplaceAllSelf | background.js:45-49 | Replacing a token by itself is the identity |
| Strings.SplitJoinRoundTrip | background.js:45-49 | Joining the split pieces with the token gives back the original string |
| Strings.LeadingSpacesSpec | content.js:405-407 | The leading run counted for `trim` is all whitespace and stops at the first other character |
| Strings.TrailingSpacesSpec | content.js:405-407 | The trailing run counted for `trim` is all whitespace and stops at the last other character |
| Strings.Trim | content.js:405-407 | `trim` never lengthens its input; `TrimSpec`, `TrimIsTrimmed` and `TrimEmptyIff` state what it removes |
| Strings.TrimSpec | content.js:405-407 | `trim` returns the substring left after removing only whitespace from both ends |
| Strings.TrimIsTrimmed | content.js:405-407 | The result of `trim` has no whitespace at either end |
| Strings.LeadingSpacesSkip | content.js:405-407 | Whitespace put in front lengthens the leading run by exactly its length |
| Strings.TrimEmptyIff | content.js:409 | A trimmed input is empty exactly when the input is all whitespace |
| Strings.TrimSkipsLeadingWhitespace | content.js:405-407 | Leading whitespace does not change the trimmed value |
| Strings.NatToString | content.js:499 | The decimal form of a count is non-empty, all digits, and has no leading zero unless the count is 0 |
| Strings.ParseNatToString | content.js:499 | Reading the decimal form back gives the count: the rendering loses nothing |
| Strings.NatToStringBelowHundred | content.js:499 | A count below 100 renders in at most two digits |
| Template.Token | background.js:45-49 | Every placeholder token starts with `{{` and has no further `{` |
| Template.TokensDiffer | background.js:45-49 | Two distinct placeholders differ at some position inside both tokens |
| Template.OtherTokenPassesThrough | background.js:45-49 | A pass for one placeholder leaves another placeholder's token intact and resumes after it |
| Template.PassOverRender | background.js:45-49 | On template text whose literals lack `{`, one pass turns exactly the holes of its placeholder into the value |
| Template.FillAllIsExpand | background.js:45-49 | Applying the five passes to the holes yields the intended expansion of the template text |
| Template.Substitute | background.js:43-49 | The five passes on a string leaf; stated by `SubstituteTemplateText`, `SubstituteConsumesPlaceholders`, `PassesAreSequential` and `SubstituteNotIdempotent` |
| Template.SubstituteTemplateText | background.js:43-49 | With brace-free literals and brace-free text, title and labels values, the five passes replace every placeholder by its field |
| Template.ExpandLacksBrace | background.js:43-49 | The expansion of brace-free template text with brace-free values contains no `{` |
| Template.SubstituteConsumesPlaceholders | background.js:43-49 | Under those conditions no placeholder token remains in a string leaf, and a second substitution changes nothing |
| Template.ExpandPluralLabels | background.js:47-48 | Spelling every `{{label}}` as `{{labels}}` does not change the expansion |
| Template.LabelIsAliasOfLabels | background.js:47-48 | For template text whose literals lack `{` and text, title and labels values without `{`, spelling `{{label}}` as `{{labels}}` does not change the substituted string |
| Template.LabelAliasBroken | background.js:47-48 | Without that condition the alias fails: with labels `{{label}}` + r, `{{label}}` gives the labels value but `{{labels}}` gives it with r repeated |
| Template.OwnMembers | background.js:57-60 | A member is created exactly when the parsed object has it under a key other than `__proto__`; an object without that key is copied whole |
| Template.OwnMembersAppend | background.js:57-60 | The copy works member by member, so the kept members stay in their order |
| Template.ProcessTemplate | background.js:42-65 | The recursive walk; stated by `ProcessTemplatePreservesShape`, `ProcessTemplateOwnKeysOnly`, `ProcessTemplateWithoutPlaceholders` and `ProcessTemplateConsumesPlaceholders` |
| Template.ProcessTemplatePreservesShape | background.js:42-65 | Arrays keep their length, objects keep their keys other than `__proto__` in order, scalars (numbers, booleans, null) are unchanged; only string leaves change |
| Template.ProcessTemplateOwnKeysOnly | background.js:57-60 | No object anywhere in the result has a `__proto__` member |
| Template.ProtoMemberDropped | background.js:57-60 | `{"__proto__": x, k: v}` is posted as the object holding only `k` with `v` processed |
| Template.SubstituteWithoutPlaceholder | background.js:43-49 | A string leaf without any placeholder is returned unchanged |
| Template.ProcessTemplateWithoutPlaceholders | background.js:42-65 | A template tree without placeholders is returned unchanged, whatever the data, exactly when no object in it has a `__proto__` member |
| Template.ProcessTemplateConsumesPlaceholders | background.js:42-65 | For brace-free template text and values, no leaf of the result holds a placeholder and processing twice equals processing once |
| Template.PassesAreSequential | background.js:45-49 | A text value that is itself `{{title}}` is rewritten to the title by the later pass |
| Template.SubstituteNotIdempotent | background.js:45-49 | For template text `{{{{text}}text}}` with empty fields, one substitution leaves a `{{text}}` token and a second one changes the result |
| Template.TwoBracesBeforeToken | background.js:45-49 | Two braces in front of a token do not stop it from being replaced; they stay in the output |
| Template.BraceWrappedFirstPass | background.js:45 | With empty text, the `{{text}}` pass turns `{{{{text}}text}}` into `{{text}}` |
| Template.LaterPassesKeep | background.js:46-49 | The title, labels, label and url passes leave a `{{text}}` token alone |
| Template.FillKeepsLiteralsBraceFree | background.js:45-49 | A pass with a brace-free value keeps the template text brace-free |
| Webhook.OrDefault | background.js:33-34 | A stored non-empty string is used; an absent or empty one falls back to the default |
| Webhook.GetWebhookConfig | background.js:30-39 | A stored non-empty url or template is used as it is; an absent or empty one falls back to the default; so both are always non-empty |
| Webhook.BuildTemplateData | background.js:73-87 | The url is always the page url; a plain selection gives text only, with empty title and labels; a structured idea gives each present field or `''` |
| Webhook.PlainTextIsTextOnlyNote | background.js:78-87 | A plain selection is read the same as a note holding only the text |
| Webhook.RequestBody | background.js:89-102 | The body from a parsed template or the fallback; stated by `FallbackBodyFields`, `TemplateBodyKeepsShape` and `DefaultTemplateBody` |
| Webhook.FallbackBody | background.js:96-101 | The fixed four-member body; stated by `FallbackBodyFields` |
| Webhook.FallbackBodyFields | background.js:91-102 | When the template does not parse, the body is exactly `{idea, title, labels, url}` with the raw fields |
| Webhook.TemplateBodyKeepsShape | background.js:91-93 | When the template parses, the body has the template's shape |
| Webhook.DefaultTemplateBody | background.js:7-10 | The default template posts `{idea: text, url: url}` for brace-free selected text |
| Webhook.DefaultTemplateHello | background.js:30-39 | With nothing configured, and given that parsing the default template text yields its object, the selection "hello" is posted as `{idea: "hello", url}` to the default endpoint |
| Webhook.BuildRequest | background.js:89-115 | The request goes to the configured url as a POST with JSON content type; its body is the fallback body when the configured template text does not parse, and otherwise the parsed template processed with the data built from the idea and page url, which has the template's shape |
| Webhook.WebhookOutcome | background.js:119-125 | Success exactly for a response with status 200-299, carrying the response text; network errors propagate their message |
| Webhook.HttpErrorCarriesStatus | background.js:119-121 | A non-2xx status fails with `HTTP error! status: ` followed by the status in decimal, with no leading zero, which reads back as the status |
| Webhook.HandleMessage | background.js:13-27 | The listener answers exactly the `sendToWebhook` action, with the outcome of one POST of the built request |
| Notes.StorageKey | content.js:180 | The storage key is `notes_` followed by the page url |
| Notes.StorageKeyInjective | content.js:180 | Different pages never share a storage key |
| Notes.StoredNotes | content.js:315 | Loading yields the stored list, or `[]` when the key is absent |
| Notes.SaveThenLoad | content.js:312-327 | Loading after saving gives the saved notes back, and other pages' entries are untouched |
| Notes.SplitLabelPieces | content.js:415 | The split gives at least one piece; `SplitPiecesLackSeparator` and `SplitLabelPiecesRejoin` state which |
| Notes.SplitLabelPiecesRejoin | content.js:415 | There is one more piece than separators in the input, and the pieces put back together around those separators give the input |
| Notes.SplitPiecesLackSeparator | content.js:415 | Splitting on `,` or `，` leaves no separator in any piece |
| Notes.TrimAndDropEmpty | content.js:415 | Trimming and dropping empty pieces; stated by `TrimAndDropEmptyMembers`, `TrimAndDropEmptyAppend` and `TrimAndDropEmptyClean` |
| Notes.TrimAndDropEmptyMembers | content.js:415 | A label results exactly when some piece trims to it and it is non-empty |
| Notes.TrimAndDropEmptyAppend | content.js:415 | Trimming and dropping works piece by piece, so labels keep the order of their pieces |
| Notes.TrimAndDropEmptyClean | content.js:415 | Trimming the pieces and dropping empty ones leaves only non-empty, trimmed, separator-free labels |
| Notes.ParseLabels | content.js:415 | An empty label input gives no labels; otherwise the labels are the trimmed, non-empty pieces of the split, in order (`SplitLabelPiecesRejoin`, `TrimAndDropEmptyMembers`, `TrimAndDropEmptyAppend`) |
| Notes.ParseLabelsClean | content.js:415 | Every parsed label is non-empty, trimmed and free of separators |
| Notes.SplitJoinedLabels | content.js:415 | Labels joined by `", "` split into the first label and then each later label behind one space |
| Notes.ParseJoinedLabels | content.js:415 | Parsing clean labels joined by `", "` gives back the same labels |
| Notes.ParseLabelsNormalForm | content.js:415 | Joining parsed labels and parsing again gives the same labels |
| Notes.WithoutId | content.js:447 | Deletion never lengthens the list and no survivor has the id; `WithoutIdMembers` and `WithoutIdAppend` state the rest |
| Notes.WithoutIdMembers | content.js:447 | A note survives deletion exactly when it was stored and has a different id |
| Notes.WithoutIdAppend | content.js:447 | Deletion filters piece by piece, so survivors keep their relative order |
| Notes.WithoutAbsentId | content.js:447 | Deleting an id that no note has leaves the list unchanged |
| Notes.DeleteUndoesAdd | content.js:425 | Deleting the id of a just-appended note with a fresh id restores the earlier list |
| Notes.FindNote | content.js:458 | Lookup finds nothing exactly when no note has the id, and otherwise the first note with it |
| Notes.FindAfterAdd | content.js:458 | After appending a note with a fresh id, lookup by that id finds it |
| Notes.InsertNewestFirst | content.js:346 | Insertion lengthens the list by one and puts either the new note or the old head in front |
| Notes.InsertAddsOne | content.js:346 | Insertion adds exactly the one note: the multiset grows by it and nothing else changes |
| Notes.PrependNewest | content.js:346 | A note at least as new as the head of a newest-first list can go in front of it |
| Notes.InsertKeepsNewestFirst | content.js:346 | Inserting into a newest-first list keeps it newest first |
| Notes.SortNewestFirst | content.js:346 | The display order has as many notes as the list; `SortNewestFirstSpec` and `SortIsStable` state which order |
| Notes.SortNewestFirstSpec | content.js:346 | The display order is a permutation of the notes, ordered by non-increasing `createdAt` |
| Notes.InsertKeepsTies | content.js:346 | Insertion puts the new note ahead of the existing notes with the same `createdAt` |
| Notes.SortIsStable | content.js:346 | Notes with equal `createdAt` keep their stored order (the stable sort of the comparator) |
| Notes.SortExample | content.js:346 | Notes created at 100, 300 and 200 are displayed as 300, 200, 100 |
| Notes.BadgeText | content.js:494-500 | A badge appears exactly when there are notes; more than 99 shows `99+`; otherwise at most two digits, with no leading zero, that read back as the count |
| Notes.RelativeTime | content.js:508-517 | Under a minute (including future times) is "just now"; under an hour it is the whole minutes elapsed (1-59); an hour or more falls to the calendar forms |
| Notes.TimeText | content.js:511-517 | "Just now" and the minutes bucket have text, the latter being the minutes in decimal, with no leading zero, followed by the minutes-ago suffix |
| Notes.SendRecord | content.js:476-480 | The record a note is sent as; stated by `SentNoteTemplateData` |
| Notes.SentNoteTemplateData | content.js:476-480 | A sent note fills the template with its content, its title and its labels joined by `", "` |
| Notes.CustomTemplateExample | content.js:476-480 | The template `{"msg": "{{text}} @ {{url}}", "tags": "{{labels}}"}` sends a note labelled todo and home as `{msg: content + " @ " + url, tags: "todo, home"}` |
| NoteStore.Draft | content.js:405-425 | A note is built exactly when the trimmed content or the trimmed title is non-empty; it carries the two clock readings, the trimmed texts and the parsed labels |
| NoteStore.DraftIsClean | content.js:405-425 | A built note has trimmed content and title, at least one of them non-empty, and only clean labels |
| NoteStore.DraftIgnoresLeadingWhitespace | content.js:405-407 | Leading whitespace in the inputs does not change the note |
| NoteStore.Storage.constructor | content.js:313-327 | The local storage area holds the entries it is given |
| NoteStore.NoteManager.constructor | content.js:178-195 | A manager is keyed by its page, starts closed, and holds the page's stored notes or none |
| NoteStore.NoteManager.LoadNotes | content.js:312-319 | The notes become the stored list for this page, or `[]` |
| NoteStore.NoteManager.SaveNotes | content.js:322-327 | This page's entry becomes the current notes; every other entry is unchanged |
| NoteStore.NoteManager.AddNote | content.js:404-439 | An all-blank content and title changes nothing and saves nothing; otherwise exactly one note is appended after the unchanged earlier notes, and the list is saved |
| NoteStore.NoteManager.PushAndSave | content.js:425-426 | The note is appended and the list saved |
| NoteStore.NoteManager.DeleteNote | content.js:442-454 | Declining the confirmation changes nothing; confirming keeps exactly the notes with another id, in order, and saves |
| NoteStore.NoteManager.CopyNoteContent | content.js:457-468 | Copies the content of the first note with the id, and nothing for an unknown id |
| NoteStore.NoteManager.SendNoteToWebhook | content.js:471-483 | Sends the first note with the id as a `sendToWebhook` message carrying the url read at send time, and nothing for an unknown id |
| NoteStore.NoteManager.UpdateBadge | content.js:486-502 | No badge without notes, `99+` above 99, otherwise the count in decimal digits with no leading zero |
| NoteStore.NoteManager.RenderNotes | content.js:344-346 | The view is a permutation of the notes, newest first, with ties in stored order; the stored list is not reordered |
| NoteStore.NoteManager.Toggle | content.js:286-292 | Toggling flips the open state |
| NoteStore.NoteManager.Open | content.js:295-301 | The sidebar is open afterwards |
| NoteStore.NoteManager.Close | content.js:304-309 | The sidebar is closed afterwards |

## Left out

- DOM and presentation are not modelled: the floating button, sidebar, overlay, notifications, listeners, the HTML strings of `renderNotes`, input clearing after a save, and `escapeHtml`. `RenderNotes` returns the notes in display order instead of HTML.
- `chrome.storage` is the `Storage` class, updated synchronously. Its asynchronous callbacks and any interleaving are not modelled.
- `chrome.runtime` messaging is not modelled. The content script's side is the `Message` that `SendNoteToWebhook` returns; the background side is `HandleMessage`. The response callback and its notifications are not modelled.
- `JSON.parse` and `JSON.stringify` are not modelled. `JSON.parse` is a function parameter `parse` of `BuildRequest` and `HandleMessage` (`None` where it throws), applied to the configured template text, and the body is a `Json` value rather than its serialization. `DefaultTemplate` is written out as the value `DefaultRequestBody` parses to; `DefaultTemplateHello` takes that as its hypothesis about `parse`. Key order and duplicate keys are settled by the parse: a `JObject` lists its members in enumeration order.
- `fetch` is a function parameter of `HandleMessage` that returns a `Delivery`; headers beyond the content type and the network itself are outside the model.
- `confirm`, `Date.now` and `navigator.clipboard` are parameters or results: the confirmation is a boolean, the two clock readings for `id` and `createdAt` are separate parameters, and `CopyNoteContent` returns the text to be written. A clipboard failure only changes the notification.
- The calendar branches of `formatTime` (today, yesterday, month and day) depend on the local time zone and `Date` formatting. `RelativeTime` returns `OlderThanHour` for them and `TimeText` gives no text.
- JSON numbers are `real`s and pass through unchanged; floating-point details are not modelled.
- `ReplaceAll` takes the replacement literally; the `$` patterns of `String.prototype.replace` are not modelled.
- Template.SubstituteConsumesPlaceholders: states the "no placeholder remains" and idempotence properties only for template text whose literals contain no `{` and for field values without `{`, because the sequential passes break both otherwise (see `SubstituteNotIdempotent`). These conditions suffice only because replacement is literal here: a value holding `$&`, `` $` `` or `$'` puts matched text back in the program (with text `$&`, `{{text}}` stays in place).
- Template.LabelIsAliasOfLabels: states the alias only for template text whose literals contain no `{` and text, title and labels values without `{`, because a labels value holding `{{label}}` is rewritten again by the later pass (see `LabelAliasBroken`); the same literal-replacement caveat applies.
- Notes with missing `title` or `labels` are not modelled: the code guards with `note.title || ''` and `note.labels ? … : ''` (content.js:478-479), and the model assumes both fields are present.
- Ids are not assumed unique; lookup takes the first match and deletion removes every match, as the code does.
- `console` logging (the template fallback at background.js:95, and background.js:104-107, 117, 124, 127) has no effect on the result and is not modelled.
- The url of a sent note is read at send time (content.js:75) and is a parameter of `SendNoteToWebhook`; it can differ from the `currentUrl` the notes are keyed by after in-page navigation, which the model allows.
- popup.js (the settings form and its URL and JSON checks) is not part of this model.
