# StarNote in Dafny

A Dafny model of the core of StarNote, a note-taking and study app. It has a React front end
and an Express/Mongoose back end. The model covers:

- **Text formatting** (`format_text.dfy`). `formatText` turns `**bold**`, `*italic*`,
  numbered and bullet lists and newlines into HTML. `stripFormatting` removes the markers
  again. `isWithinFormatting` decides which toolbar button shows as active at the cursor.
- **Note card** (`note_card.dfy`). Titles and previews are cut to 50 and 100 characters.
- **Focus timer page** (`pomodoro_page.dfy`). It covers the focus / short break / long break
  state machine, the countdown, the settings form and the task list.
- **Sign-in form** (`auth_page.dfy`). It covers its validator, including the email pattern
  `\S+@\S+\.\S+`, and the handlers that clear errors.
- **Flashcards page** (`flashcards_page.dfy`). It covers the search and category filter, the
  editor, and study mode stepping cyclically through the shown cards.
- **Notes page** (`notes_page.dfy`). It covers the search and tab filter, favourites and the
  editor's save.
- **Back-end routes.** These are `flashcard_routes.dfy`, `note_routes.dfy`,
  `user_routes.dfy` and `pomodoro_routes.dfy`.
  - Each collection is a class that holds a map from document id to record.
  - Each handler is a method that returns a `Reply`, which is a status code with a body or an
    error message.
  - Ownership checks give 404. A missing `user_id` gives 400.
  - Register and profile update keep emails unique.
  - There is at most one timer record per user.

JavaScript builtins that the code relies on are in `js_strings.dfy`: `trim` and its
whitespace set, ASCII `toLowerCase`, `indexOf` / `lastIndexOf` / `substring` with their
clamping of positions, `split('\n')` / `join('\n')`, `parseInt`, `padStart` and the
truncating `%`. Sequence filtering and subsequences are in `seqs.dfy`. `null` / `undefined`
are `Option` (in `wrappers.dfy`), or the empty string where the code treats them like "".

React state is the field set of a class. Each handler is a method whose `ensures` gives the
whole new state. An effect that recomputes derived state is a method too: `FilterEffect` on
the two list pages, `ResetTimer` on the timer page. Every handler that changes a value an
effect watches ends by calling that effect, so its contract describes the state after the
re-render:

- On the flashcards page these are `CardsLoaded`, `HandleSearch`, `HandleCategoryChange`,
  and `HandleDeleteCard` and `HandleSaveCard` when the request succeeds.
- On the notes page they are `NotesLoaded`, `HandleSearch`, `HandleFilterChange`,
  `HandleDeleteNote`, `HandleToggleFavorite` and `HandleSaveNote`.
- On the timer page they are `CompleteSession` and `Tick` (at zero), `Skip` and
  `ChangeSetting`. `HandleTimerComplete`, `SkipToNext` and `HandleSettingChange` are the bare
  handlers, before the effect runs.

The time (`Date.now()`), the outcome of a request and a value the server returns are
parameters.

Some behaviours of the source that the proofs pin down:

- In `isWithinFormatting`, the check for an end marker before the cursor
  (formatText.js:156-157) and the check for a start marker after it (:164-165) can never
  fire. The start and end markers are the same, so bold is reported "active" whenever `**`
  occurs before and after the cursor. That includes a cursor between two separate bold spans
  (`BoldWithinBetweenSpans`).
- `stripFormatting` is not idempotent: `"- - x"` becomes `"- x"` and then `"x"`.
- In the list check, a cursor at 0 in a text that starts with a newline reads the line
  `"\n"` (`CurrentLineAtLeadingNewline`).
- The notes page's create flow always gives the draft an id, so the "append" branch of
  `handleSaveNote` is never reached from it. Saving a new note whose id no held note carries
  changes nothing (`CreatedNoteNeverAppended`).
- Favouriting a flashcard in the trash takes it out of the trash (`FavoriteToggle`,
  `FavoriteToggleTwice`).
- The note `PUT /:id` route writes the body's fields without the schema's enum check, so a
  note's status is a free string in the model. The routes that `save()` a document do run
  the schema check, so they answer 500 when a stored document already breaks it. `Storable`
  is that check.

## Model

| member | source | states |
|---|---|---|
| FormatText.BoldClose | star-note-frontend/src/utils/formatText.js:12 | the lazy `(.*?)` of a bold match ends at the first `**` on the same line, and none is found exactly when no `**` follows on that line |
| FormatText.BoldAtPair | star-note-frontend/src/utils/formatText.js:12 | a `**` closed on its line becomes `<strong>` around the text between, and the pass continues after the closing marker |
| FormatText.BoldUnpaired | star-note-frontend/src/utils/formatText.js:12 | a `**` with no closing `**` on its line is left as it is |
| FormatText.BoldNoDoubleStar | star-note-frontend/src/utils/formatText.js:12 | text without `**` passes the bold pass unchanged |
| FormatText.ItalicClose | star-note-frontend/src/utils/formatText.js:15 | the italic group ends at the first lone `*` (no `*` on either side) on the same line |
| FormatText.ItalicAtPair | star-note-frontend/src/utils/formatText.js:15 | two lone `*` on one line with no lone `*` between become `<em>` around the text between |
| FormatText.ItalicCloseAt | star-note-frontend/src/utils/formatText.js:15 | the first lone `*` on the line is where the group closes |
| FormatText.ItalicSkipsDoubleStar | star-note-frontend/src/utils/formatText.js:15 | a `*` next to another `*` never opens an italic span (the lookbehind and lookahead) |
| FormatText.ItalicNoStar | star-note-frontend/src/utils/formatText.js:15 | a suffix without `*` passes the italic pass unchanged |
| FormatText.ItalicNoStarAll | star-note-frontend/src/utils/formatText.js:15 | text without `*` passes the italic pass unchanged |
| FormatText.NumberedItemShape | star-note-frontend/src/utils/formatText.js:18-23 | every digits, `.`, whitespace, rest line is a numbered item whose content is the rest, whatever the number |
| FormatText.ItemKindsExclusive | star-note-frontend/src/utils/formatText.js:44-49 | no line is both a numbered and a bullet item |
| FormatText.RenderLines | star-note-frontend/src/utils/formatText.js:21-35 | the `map` with its `inList` flag yields the per-line rendering of `Rendered`, and the flag ends true exactly when the last line is an item |
| FormatText.ListPass | star-note-frontend/src/utils/formatText.js:17-41 | one list pass (numbered or bullet) equals its declarative specification `ListPassSpec` |
| FormatText.ListPassSpecUnguarded | star-note-frontend/src/utils/formatText.js:19 | when no line is an item the pass is the identity, so the `.test` guard is unobservable |
| FormatText.ListPassSpecGuarded | star-note-frontend/src/utils/formatText.js:19-41 | with items present the pass is the joined rendering plus a closing tag when the list is still open |
| FormatText.ListPassWithoutItems | star-note-frontend/src/utils/formatText.js:22-35 | rendering lines none of which is an item and joining them gives back the text |
| FormatText.BreaksCons | star-note-frontend/src/utils/formatText.js:70-71 | the newline pass works character by character, looking only at the text after each newline |
| FormatText.BreaksKeepsPrefix | star-note-frontend/src/utils/formatText.js:70-71 | text before the first newline is kept as it is |
| FormatText.BreaksAtNewline | star-note-frontend/src/utils/formatText.js:70-71 | a newline becomes `<br>` unless a list tag follows it |
| FormatText.BreaksNoNewline | star-note-frontend/src/utils/formatText.js:70-71 | text without newlines is unchanged |
| FormatText.FormatText | star-note-frontend/src/utils/formatText.js:8-74 | the method (two loops over lines) computes `Formatted`, the composition of the five passes; empty text gives "" |
| FormatText.ListPassOneLine | star-note-frontend/src/utils/formatText.js:17-41 | a single line that is not an item passes a list pass unchanged |
| FormatText.ListsAndBreaksKeepLine | star-note-frontend/src/utils/formatText.js:17-71 | a single non-item line passes both list passes and the newline pass unchanged |
| FormatText.FormattedOneLine | star-note-frontend/src/utils/formatText.js:8-74 | a line whose inline result starts with a tag is the final HTML |
| FormatText.BoldWord | star-note-frontend/src/utils/formatText.js:12 | `**w**` becomes `<strong>w</strong>` |
| FormatText.FormattedBoldWord | star-note-frontend/src/utils/formatText.js:8-74 | `formatText("**w**")` is `<strong>w</strong>` |
| FormatText.ItalicWord | star-note-frontend/src/utils/formatText.js:15 | `*w*` becomes `<em>w</em>` |
| FormatText.FormattedItalicWord | star-note-frontend/src/utils/formatText.js:8-74 | `formatText("*w*")` is `<em>w</em>` |
| FormatText.ListPassOfLines | star-note-frontend/src/utils/formatText.js:19-41 | a text whose first line is an item renders as the joined lines plus the trailer |
| FormatText.RenderedTwoItems | star-note-frontend/src/utils/formatText.js:24-29 | two item lines render as the opening tag with the first item, then the second item |
| FormatText.ListPassTwoItems | star-note-frontend/src/utils/formatText.js:17-41 | two item lines become one list with two `<li>` and a closing tag |
| FormatText.InlineNoStar | star-note-frontend/src/utils/formatText.js:11-15 | text without `*` passes the bold and italic passes unchanged |
| FormatText.NumberedLine | star-note-frontend/src/utils/formatText.js:23 | a one-digit number, `. ` and plain text is the numbered item holding that text |
| FormatText.NumberedPair | star-note-frontend/src/utils/formatText.js:23 | `1. a` and `2. b` are numbered items holding `a` and `b`, each on one line |
| FormatText.NumberedThenBulletLines | star-note-frontend/src/utils/formatText.js:23 | `1. a` is a numbered item holding `a`, and `- b` is no numbered item |
| FormatText.LiOneLine | star-note-frontend/src/utils/formatText.js:27-29 | a rendered item of plain text holds no newline and no `*` |
| FormatText.BulletLine | star-note-frontend/src/utils/formatText.js:49 | `- ` and plain text is the bullet item holding that text, and no numbered item |
| FormatText.RenderedNotBullet | star-note-frontend/src/utils/formatText.js:49 | a line starting with `<` or a space (every line a list pass renders) is no bullet item |
| FormatText.NumberedPassOfTwo | star-note-frontend/src/utils/formatText.js:17-41 | `1. a` and `2. b` become one `<ol>` with two items |
| FormatText.BulletPassKeepsList | star-note-frontend/src/utils/formatText.js:43-67 | the bullet pass finds no item in a rendered ordered list and leaves it alone |
| FormatText.NumberedThenBulletPass | star-note-frontend/src/utils/formatText.js:17-41 | after `1. a` a bullet line closes the ordered list and is kept as it is |
| FormatText.RenderedItemThenPlain | star-note-frontend/src/utils/formatText.js:24-34 | an item line then a non-item line render as the opening tag with the item, then the closing tag before the kept line |
| FormatText.ListPassItemThenPlain | star-note-frontend/src/utils/formatText.js:17-41 | an item line then a non-item line: the list closes before the second line and no closing tag is appended |
| FormatText.MixedLines | star-note-frontend/src/utils/formatText.js:48 | the bullet pass splits the numbered pass's output into the tag lines, the item and the bullet line |
| FormatText.MixedRendered | star-note-frontend/src/utils/formatText.js:48-61 | of those lines only the bullet line is an item, and it opens a `<ul>` |
| FormatText.BulletAfterNumberedPass | star-note-frontend/src/utils/formatText.js:43-67 | the bullet pass then adds a `<ul>` after the closed `<ol>` and closes it at the end |
| FormatText.MixedJoined | star-note-frontend/src/utils/formatText.js:61-66 | the joined lines plus the closing tag are the two consecutive lists |
| FormatText.BreaksBeforeTag | star-note-frontend/src/utils/formatText.js:70-71 | a newline followed by a list tag stays a newline |
| FormatText.ItemLineFollows | star-note-frontend/src/utils/formatText.js:71 | a rendered item line matches the look-ahead's `\s*<li>` |
| FormatText.TagFollows | star-note-frontend/src/utils/formatText.js:71 | an opening or closing list tag matches the look-ahead |
| FormatText.SpacesThenItemExtends | star-note-frontend/src/utils/formatText.js:71 | `\s*<li>` matching at the start of a text still matches with more text after it |
| FormatText.ListTagFollowsExtends | star-note-frontend/src/utils/formatText.js:71 | the look-ahead that matches at a line start still matches when more text follows |
| FormatText.BreaksOfTaggedLines | star-note-frontend/src/utils/formatText.js:70-71 | newline-free lines, each after the first starting with a list tag, joined by newlines get no `<br>` |
| FormatText.LiFollows | star-note-frontend/src/utils/formatText.js:71 | every rendered `<li>` line matches the look-ahead |
| FormatText.TagsFollow | star-note-frontend/src/utils/formatText.js:71 | `<ol>`, `</ol>`, `<ul>` and `</ul>` each match the look-ahead |
| FormatText.OrderedHtmlLines | star-note-frontend/src/utils/formatText.js:27-39 | a two-item ordered list is its four lines joined by newlines |
| FormatText.BreaksOfTwoItemList | star-note-frontend/src/utils/formatText.js:70-71 | a rendered two-item ordered list gets no `<br>` |
| FormatText.BreaksOfMixed | star-note-frontend/src/utils/formatText.js:70-71 | an ordered list followed by an unordered one gets no `<br>` |
| FormatText.MixedHtmlLines | star-note-frontend/src/utils/formatText.js:32-65 | the closed `<ol>` followed by the `<ul>` is its six lines joined by newlines |
| FormatText.FormattedNumberedList | star-note-frontend/src/utils/formatText.js:8-74 | `formatText("1. a\n2. b")` is one `<ol>` with the items `a` and `b` and no `<br>`, for any plain `a`, `b` |
| FormatText.FormattedNumberedListExample | star-note-frontend/src/utils/formatText.js:8-74 | `formatText("1. a\n2. b")` is exactly `<ol>\n  <li>a</li>\n  <li>b</li>\n</ol>` |
| FormatText.FormattedMixedLists | star-note-frontend/src/utils/formatText.js:8-74 | a numbered line then a bullet line give a closed `<ol>` then a `<ul>`: the runs never merge |
| FormatText.FormattedMixedListsExample | star-note-frontend/src/utils/formatText.js:8-74 | `formatText("1. a\n- b")` is exactly `<ol>\n  <li>a</li>\n</ol>\n<ul>\n  <li>b</li>\n</ul>` |
| FormatText.StarClose | star-note-frontend/src/utils/formatText.js:88 | the italic-strip group ends at the first `*` on the same line |
| FormatText.MarkerAt | star-note-frontend/src/utils/formatText.js:89-90 | the list marker found at a line start lies inside the text |
| FormatText.MarkerHere | star-note-frontend/src/utils/formatText.js:89-90 | a marker is only removed at a line start and lies inside the text |
| FormatText.StripBoldDeletes | star-note-frontend/src/utils/formatText.js:87 | removing bold markers only deletes characters (a subsequence) |
| FormatText.StripStarsDeletes | star-note-frontend/src/utils/formatText.js:88 | removing italic markers only deletes characters |
| FormatText.StripMarkersDeletes | star-note-frontend/src/utils/formatText.js:89-90 | removing list markers only deletes characters |
| FormatText.StripFormattingDeletes | star-note-frontend/src/utils/formatText.js:82-91 | `stripFormatting` returns a subsequence of its input, so never a longer text |
| FormatText.StripFormattingNotIdempotent | star-note-frontend/src/utils/formatText.js:82-91 | stripping `"- - x"` twice differs from stripping it once |
| FormatText.StripTwoBullets | star-note-frontend/src/utils/formatText.js:90 | `"- - x"` strips to `"- x"`: only the marker at the line start is removed |
| FormatText.StripOneBullet | star-note-frontend/src/utils/formatText.js:90 | `"- x"` strips to `"x"` |
| FormatText.StripMarkersMidLine | star-note-frontend/src/utils/formatText.js:89-90 | markers in the middle of a line are not removed |
| FormatText.StripUnmarkedUntilBullets | star-note-frontend/src/utils/formatText.js:86-90 | text with no `*` and no digit is changed only by the bullet step |
| FormatText.StripBoldNoStar | star-note-frontend/src/utils/formatText.js:87 | text without `*` passes the bold strip unchanged |
| FormatText.StripStarsNoStar | star-note-frontend/src/utils/formatText.js:88 | text without `*` passes the italic strip unchanged |
| FormatText.StripNumbersNoDigit | star-note-frontend/src/utils/formatText.js:89 | text without digits passes the numbered-marker strip unchanged |
| FormatText.InlineWithinSameMarker | star-note-frontend/src/utils/formatText.js:147-167 | with equal start and end markers the inline check is exactly "the marker occurs before the cursor and after it" |
| FormatText.BoldWithinMeaning | star-note-frontend/src/utils/formatText.js:147-167 | bold is active exactly when `**` occurs both before and after the cursor |
| FormatText.ItalicWithinMeaning | star-note-frontend/src/utils/formatText.js:147-167 | italic is active exactly when `*` occurs both before and after the cursor |
| FormatText.CurrentLineHoldsCursor | star-note-frontend/src/utils/formatText.js:131-136 | the list check reads exactly the newline-free line that contains the cursor |
| FormatText.CurrentLineAtLeadingNewline | star-note-frontend/src/utils/formatText.js:131-142 | at cursor 0 of a text starting with a newline the line read is `"\n"`, and no list is reported |
| FormatText.UnknownFormatInactive | star-note-frontend/src/utils/formatText.js:125-126 | an unknown format is never active |
| FormatText.BoldWithinSpan | star-note-frontend/src/utils/formatText.js:147-167 | a cursor inside a `**...**` span reports bold |
| FormatText.BoldWithinBetweenSpans | star-note-frontend/src/utils/formatText.js:156-157 | a cursor between two closed bold spans also reports bold, because the closed-pair check never fires |
| FormatText.BoldNotWithinAfterLastMarker | star-note-frontend/src/utils/formatText.js:160-161 | with no `**` at or after the cursor, bold is not active |
| FormatText.NumberedWithinLine | star-note-frontend/src/utils/formatText.js:138-139 | anywhere on a one-line numbered item the numbered list is active |
| JsStrings.TrimMeaning | star-note-frontend/src/pages/Auth/AuthPage.jsx:58-62 | `trim()` is empty exactly for all-whitespace text, and otherwise starts and ends with non-whitespace |
| JsStrings.Lower | star-note-frontend/src/pages/Flashcards/FlashcardsPage.jsx:92-93 | `toLowerCase` keeps the length and maps each character |
| JsStrings.Includes | star-note-frontend/src/pages/Flashcards/FlashcardsPage.jsx:92-93 | `includes` is true exactly when the pattern occurs at some index |
| JsStrings.IndexFrom | star-note-frontend/src/utils/formatText.js:132 | `indexOf` from a position returns the first occurrence at or after it, or -1 when there is none |
| JsStrings.LastFrom | star-note-frontend/src/utils/formatText.js:131 | `lastIndexOf` up to a position returns the last occurrence at or before it, or -1 when there is none |
| JsStrings.JoinSplit | star-note-frontend/src/utils/formatText.js:22-35 | `split('\n')` followed by `join('\n')` gives back the text |
| JsStrings.SplitJoin | star-note-frontend/src/utils/formatText.js:22-35 | joining newline-free lines and splitting again gives back the lines |
| JsStrings.ParseIntOfIntToString | star-note-frontend/src/pages/Pomodoro/PomodoroPage.jsx:161 | `parseInt` reads back any printed integer |
| JsStrings.ParseIntOfPadded | star-note-frontend/src/pages/Pomodoro/PomodoroPage.jsx:116 | `parseInt` reads back a zero-padded number |
| JsStrings.JsRem | star-note-frontend/src/pages/Pomodoro/PomodoroPage.jsx:99 | JavaScript's `%` takes the dividend's sign, lies strictly within the divisor's magnitude, and is 0 exactly when the divisor divides the dividend |
| NoteCard.TruncateText | star-note-frontend/src/components/NoteCard/NoteCard.jsx:53-60 | empty text gives "", and the result is at most `maxLength` + 3 characters |
| NoteCard.TruncateKeepsText | star-note-frontend/src/components/NoteCard/NoteCard.jsx:53-60 | a short result is a subsequence of the text; a cut one is `maxLength` characters of it followed by "..." |
| NoteCard.ShortTextNotCut | star-note-frontend/src/components/NoteCard/NoteCard.jsx:53-60 | a text no longer than the cap is shown whole, with the formatting stripped |
| NoteCard.CardTitle | star-note-frontend/src/components/NoteCard/NoteCard.jsx:86 | a card title is at most 53 characters |
| NoteCard.CardPreview | star-note-frontend/src/components/NoteCard/NoteCard.jsx:90 | a note without content shows an empty preview |
| PomodoroPage.AdvanceSteps | star-note-frontend/src/pages/Pomodoro/PomodoroPage.jsx:94-107 | a focus session counts one round and leads to a break; a break leads to focus with the count unchanged |
| PomodoroPage.FocusCycle | star-note-frontend/src/pages/Pomodoro/PomodoroPage.jsx:94-107 | from a multiple of `r` rounds, the first `r`-1 focus sessions are followed by short breaks and the `r`-th by the long break |
| PomodoroPage.RoundDisplay | star-note-frontend/src/pages/Pomodoro/PomodoroPage.jsx:335 | the "Round n of r" counter is between 1 and r |
| PomodoroPage.RoundDisplayInCycle | star-note-frontend/src/pages/Pomodoro/PomodoroPage.jsx:335 | after the j-th focus session of a cycle the counter reads j |
| PomodoroPage.SettingValue | star-note-frontend/src/pages/Pomodoro/PomodoroPage.jsx:161 | a stored setting is never 0 |
| PomodoroPage.SettingValueReadsBack | star-note-frontend/src/pages/Pomodoro/PomodoroPage.jsx:161 | a typed number is stored as itself; "0" and an empty input become 1 |
| PomodoroPage.FormatTimeReadsBack | star-note-frontend/src/pages/Pomodoro/PomodoroPage.jsx:113-117 | for non-negative seconds the text reads back as whole minutes, a colon and the remaining seconds in two digits |
| PomodoroPage.FormatTimeNonNegative | star-note-frontend/src/pages/Pomodoro/PomodoroPage.jsx:113-117 | for non-negative seconds the truncating `%` agrees with the mathematical remainder |
| PomodoroPage.FormatTimeFiveChars | star-note-frontend/src/pages/Pomodoro/PomodoroPage.jsx:113-117 | under 100 minutes the text has exactly five characters |
| PomodoroPage.ToggledTasks | star-note-frontend/src/pages/Pomodoro/PomodoroPage.jsx:185-191 | toggling keeps the number of tasks |
| PomodoroPage.ToggleOnlyMatching | star-note-frontend/src/pages/Pomodoro/PomodoroPage.jsx:185-191 | only tasks with the id change, and only their completion flag, which flips |
| PomodoroPage.ToggleTwice | star-note-frontend/src/pages/Pomodoro/PomodoroPage.jsx:185-191 | toggling twice restores the list |
| PomodoroPage.DeleteRemovesExactly | star-note-frontend/src/pages/Pomodoro/PomodoroPage.jsx:193-195 | deleting removes every task with the id and keeps the others in order |
| PomodoroPage.PomodoroTimer.constructor | star-note-frontend/src/pages/Pomodoro/PomodoroPage.jsx:32-48 | focus mode, 25:00, stopped, no rounds, default settings and tasks |
| PomodoroPage.PomodoroTimer.HandleTimerComplete | star-note-frontend/src/pages/Pomodoro/PomodoroPage.jsx:88-110 | the mode and rounds advance as the state machine says, and the timer stops |
| PomodoroPage.PomodoroTimer.SkipToNext | star-note-frontend/src/pages/Pomodoro/PomodoroPage.jsx:141-154 | the handler alone: the same transition, with running/stopped and the time left unchanged |
| PomodoroPage.PomodoroTimer.ToggleTimer | star-note-frontend/src/pages/Pomodoro/PomodoroPage.jsx:120 | flips running and changes nothing else |
| PomodoroPage.PomodoroTimer.ResetTimer | star-note-frontend/src/pages/Pomodoro/PomodoroPage.jsx:122-139 | stops the timer and sets the time to the current mode's minutes in seconds |
| PomodoroPage.PomodoroTimer.Tick | star-note-frontend/src/pages/Pomodoro/PomodoroPage.jsx:67-85 | a running timer with time left loses one second; at zero it completes the session and the mode effect sets the new mode's full length, stopped; otherwise nothing changes |
| PomodoroPage.PomodoroTimer.CompleteSession | star-note-frontend/src/pages/Pomodoro/PomodoroPage.jsx:62-64 | completion followed by the mode effect: the next mode, stopped, at that mode's full length |
| PomodoroPage.PomodoroTimer.HandleSettingChange | star-note-frontend/src/pages/Pomodoro/PomodoroPage.jsx:157-163 | the handler alone: the named setting takes the parsed value, which is never 0 |
| PomodoroPage.PomodoroTimer.Skip | star-note-frontend/src/pages/Pomodoro/PomodoroPage.jsx:141-154 | skipping followed by the mode effect: the next mode, stopped, at that mode's full length; settings and tasks kept |
| PomodoroPage.PomodoroTimer.ChangeSetting | star-note-frontend/src/pages/Pomodoro/PomodoroPage.jsx:157-163 | a setting change followed by the settings effect: the new setting, and the timer stopped at the current mode's new length |
| PomodoroPage.PomodoroTimer.SaveSettings | star-note-frontend/src/pages/Pomodoro/PomodoroPage.jsx:165-168 | closes the dialog and resets the timer |
| PomodoroPage.PomodoroTimer.HandleAddTask | star-note-frontend/src/pages/Pomodoro/PomodoroPage.jsx:171-183 | blank input adds nothing; otherwise the trimmed text is appended as an open task and the input clears |
| PomodoroPage.PomodoroTimer.ToggleTaskCompletion | star-note-frontend/src/pages/Pomodoro/PomodoroPage.jsx:185-191 | the tasks become `ToggledTasks` |
| PomodoroPage.PomodoroTimer.DeleteTask | star-note-frontend/src/pages/Pomodoro/PomodoroPage.jsx:193-195 | the tasks become `WithoutTask` |
| AuthPage.Message.Text | star-note-frontend/src/pages/Auth/AuthPage.jsx:44-48 | an error text is empty exactly for an error that was cleared |
| AuthPage.IsEmailMeaning | star-note-frontend/src/pages/Auth/AuthPage.jsx:64 | the scanner accepts exactly the texts in which `\S+@\S+\.\S+` occurs |
| AuthPage.EmailFromSound | star-note-frontend/src/pages/Auth/AuthPage.jsx:64 | whatever the scanner accepts contains the pattern |
| AuthPage.EmailFromComplete | star-note-frontend/src/pages/Auth/AuthPage.jsx:64 | every occurrence of the pattern is found by the scanner |
| AuthPage.FormErrorsByField | star-note-frontend/src/pages/Auth/AuthPage.jsx:55-76 | each field has an error entry exactly when its check fails, holding that check's message |
| AuthPage.NameErrorOnlyOnSignUp | star-note-frontend/src/pages/Auth/AuthPage.jsx:58-60 | the name is an error exactly when signing up with a blank name |
| AuthPage.EmailErrors | star-note-frontend/src/pages/Auth/AuthPage.jsx:62-66 | blank email is "required"; otherwise an email without the pattern is "invalid" |
| AuthPage.PasswordErrors | star-note-frontend/src/pages/Auth/AuthPage.jsx:68-72 | a password under six characters is an error: "required" when empty, else "too short" |
| AuthPage.ErrorsAreMessages | star-note-frontend/src/pages/Auth/AuthPage.jsx:55-72 | every recorded error has a non-empty message |
| AuthPage.ValidMeaning | star-note-frontend/src/pages/Auth/AuthPage.jsx:74-75 | the form is valid exactly when every check passes |
| AuthPage.AuthForm.constructor | star-note-frontend/src/pages/Auth/AuthPage.jsx:9-17 | sign-in mode, hidden password, empty fields, no errors |
| AuthPage.AuthForm.ToggleAuthMode | star-note-frontend/src/pages/Auth/AuthPage.jsx:27-31 | switches the mode and drops every error |
| AuthPage.AuthForm.TogglePasswordVisibility | star-note-frontend/src/pages/Auth/AuthPage.jsx:33-35 | flips visibility only |
| AuthPage.AuthForm.HandleChange | star-note-frontend/src/pages/Auth/AuthPage.jsx:37-53 | stores the value, blanks only that field's existing error, keeps the others and clears the server error |
| AuthPage.AuthForm.ValidateForm | star-note-frontend/src/pages/Auth/AuthPage.jsx:55-76 | the errors become `FormErrors`, and the result is true exactly when the name, email and password checks all pass |
| FlashcardsPage.VisibleCardsMeaning | star-note-frontend/src/pages/Flashcards/FlashcardsPage.jsx:85-103 | a card is shown exactly when it is loaded, matches the search and is in the category; shown cards keep their order |
| FlashcardsPage.NoFilterShowsAll | star-note-frontend/src/pages/Flashcards/FlashcardsPage.jsx:85-103 | no search and "All" shows every loaded card |
| FlashcardsPage.DeleteKeepsFilterInStep | star-note-frontend/src/pages/Flashcards/FlashcardsPage.jsx:129-139 | deleting from the shown list agrees with re-filtering the reduced list |
| FlashcardsPage.ReplaceCard | star-note-frontend/src/pages/Flashcards/FlashcardsPage.jsx:157-161 | the update keeps the number of cards |
| FlashcardsPage.ReplaceOnlyMatching | star-note-frontend/src/pages/Flashcards/FlashcardsPage.jsx:157-161 | exactly the cards with the id are replaced by the saved card; an unknown id changes nothing |
| FlashcardsPage.EditedDraft | star-note-frontend/src/pages/Flashcards/FlashcardsPage.jsx:191-194 | one input of the draft changes and the draft keeps its id |
| FlashcardsPage.NextIndex | star-note-frontend/src/pages/Flashcards/FlashcardsPage.jsx:218 | the next index stays inside the list |
| FlashcardsPage.PrevIndex | star-note-frontend/src/pages/Flashcards/FlashcardsPage.jsx:222-224 | the previous index stays inside the list |
| FlashcardsPage.NextIndexSteps | star-note-frontend/src/pages/Flashcards/FlashcardsPage.jsx:218 | next moves one card on and wraps from the last card to the first |
| FlashcardsPage.PrevIndexSteps | star-note-frontend/src/pages/Flashcards/FlashcardsPage.jsx:222-224 | prev moves one card back and wraps from the first card to the last |
| FlashcardsPage.PrevUndoesNext | star-note-frontend/src/pages/Flashcards/FlashcardsPage.jsx:208-224 | prev undoes next and next undoes prev |
| FlashcardsPage.FlashcardsView.constructor | star-note-frontend/src/pages/Flashcards/FlashcardsPage.jsx:21-36 | nothing loaded, the default categories, "All", no search, editor closed, study index 0 |
| FlashcardsPage.FlashcardsView.FilterEffect | star-note-frontend/src/pages/Flashcards/FlashcardsPage.jsx:85-103 | the shown list becomes `VisibleCards` of the loaded cards |
| FlashcardsPage.FlashcardsView.CardsLoaded | star-note-frontend/src/pages/Flashcards/FlashcardsPage.jsx:45-57 | the loaded list holds the server's cards and the shown list is `VisibleCards` of them |
| FlashcardsPage.FlashcardsView.CategoriesLoaded | star-note-frontend/src/pages/Flashcards/FlashcardsPage.jsx:60-68 | the categories are "All" followed by the server's list |
| FlashcardsPage.FlashcardsView.HandleSearch | star-note-frontend/src/pages/Flashcards/FlashcardsPage.jsx:105-107 | stores the term and re-filters |
| FlashcardsPage.FlashcardsView.HandleCategoryChange | star-note-frontend/src/pages/Flashcards/FlashcardsPage.jsx:109-111 | stores the category and re-filters |
| FlashcardsPage.FlashcardsView.HandleCreateCard | star-note-frontend/src/pages/Flashcards/FlashcardsPage.jsx:112-122 | opens an empty "Programming" draft and leaves study mode |
| FlashcardsPage.FlashcardsView.HandleEditCard | star-note-frontend/src/pages/Flashcards/FlashcardsPage.jsx:124-128 | opens a copy of the card and leaves study mode |
| FlashcardsPage.FlashcardsView.HandleCancelEdit | star-note-frontend/src/pages/Flashcards/FlashcardsPage.jsx:186-189 | closes the editor |
| FlashcardsPage.FlashcardsView.HandleCardChange | star-note-frontend/src/pages/Flashcards/FlashcardsPage.jsx:191-194 | one input of the draft changes and nothing else |
| FlashcardsPage.FlashcardsView.HandleDeleteCard | star-note-frontend/src/pages/Flashcards/FlashcardsPage.jsx:129-139 | on success the card leaves the loaded list and the shown list is re-filtered, which is the old shown list without the card when that was up to date; on failure nothing changes |
| FlashcardsPage.FlashcardsView.HandleSaveCard | star-note-frontend/src/pages/Flashcards/FlashcardsPage.jsx:140-184 | refused exactly for a blank question or answer; on success an edit replaces the matching cards, a new card is appended, the editor closes and the shown list is re-filtered |
| FlashcardsPage.FlashcardsView.StartStudyMode | star-note-frontend/src/pages/Flashcards/FlashcardsPage.jsx:196-202 | nothing on an empty list; otherwise study from the first card |
| FlashcardsPage.FlashcardsView.StopStudyMode | star-note-frontend/src/pages/Flashcards/FlashcardsPage.jsx:204-207 | leaves study mode at index 0 |
| FlashcardsPage.FlashcardsView.NextCard | star-note-frontend/src/pages/Flashcards/FlashcardsPage.jsx:208-219 | reports the shown card as reviewed and moves to `NextIndex`, staying inside the list |
| FlashcardsPage.FlashcardsView.PrevCard | star-note-frontend/src/pages/Flashcards/FlashcardsPage.jsx:221-225 | moves to `PrevIndex`, staying inside the list |
| NotesPage.VisibleNotesMeaning | star-note-frontend/src/pages/Notes/NotesPage.jsx:100-121 | "trash" shows nothing; otherwise a note is shown exactly when it matches the search and, on "favorites", is a favourite; order is kept |
| NotesPage.DeleteThenFilter | star-note-frontend/src/pages/Notes/NotesPage.jsx:150-153 | filtering after a delete equals deleting from the filtered list |
| NotesPage.ToggledNotes | star-note-frontend/src/pages/Notes/NotesPage.jsx:155-161 | toggling keeps the number of notes |
| NotesPage.ToggleFavoriteOnlyMatching | star-note-frontend/src/pages/Notes/NotesPage.jsx:155-161 | exactly the notes with the id flip their favourite flag and nothing else |
| NotesPage.ToggleFavoriteTwice | star-note-frontend/src/pages/Notes/NotesPage.jsx:155-161 | toggling twice restores the notes |
| NotesPage.SavedNotes | star-note-frontend/src/pages/Notes/NotesPage.jsx:169-182 | a draft with an id keeps the number of notes; one without an id adds one |
| NotesPage.SaveUnknownIdChangesNothing | star-note-frontend/src/pages/Notes/NotesPage.jsx:169-174 | saving a draft whose id no note carries changes nothing |
| NotesPage.SaveReplacesOnlyMatching | star-note-frontend/src/pages/Notes/NotesPage.jsx:169-174 | exactly the notes with the draft's id are replaced by the stamped draft |
| NotesPage.NewDraft | star-note-frontend/src/pages/Notes/NotesPage.jsx:131-139 | a new draft always has an id |
| NotesPage.EditedNote | star-note-frontend/src/pages/Notes/NotesPage.jsx:194-197 | editing an input keeps the draft's id |
| NotesPage.EditsKeepId | star-note-frontend/src/pages/Notes/NotesPage.jsx:194-197 | any number of edits keep the id |
| NotesPage.CreatedNoteNeverAppended | star-note-frontend/src/pages/Notes/NotesPage.jsx:131-182 | a created and edited draft is never appended, and with an id no note carries its save changes nothing |
| NotesPage.NotesView.constructor | star-note-frontend/src/pages/Notes/NotesPage.jsx:16-29 | no notes, the "all" tab, no search, editor closed, default categories |
| NotesPage.NotesView.NotesLoaded | star-note-frontend/src/pages/Notes/NotesPage.jsx:39-98 | the notes are the loaded ones and the shown list is `VisibleNotes` of them |
| NotesPage.NotesView.FilterEffect | star-note-frontend/src/pages/Notes/NotesPage.jsx:100-121 | the shown list becomes `VisibleNotes` |
| NotesPage.NotesView.HandleSearch | star-note-frontend/src/pages/Notes/NotesPage.jsx:123-125 | stores the term and re-filters |
| NotesPage.NotesView.HandleFilterChange | star-note-frontend/src/pages/Notes/NotesPage.jsx:127-129 | stores the tab and re-filters |
| NotesPage.NotesView.HandleCreateNote | star-note-frontend/src/pages/Notes/NotesPage.jsx:131-143 | opens `NewDraft` |
| NotesPage.NotesView.HandleEditNote | star-note-frontend/src/pages/Notes/NotesPage.jsx:145-148 | opens a copy of the note |
| NotesPage.NotesView.HandleNoteChange | star-note-frontend/src/pages/Notes/NotesPage.jsx:194-197 | one input of the draft changes and nothing else |
| NotesPage.NotesView.HandleCancelEdit | star-note-frontend/src/pages/Notes/NotesPage.jsx:189-192 | closes the editor |
| NotesPage.NotesView.HandleDeleteNote | star-note-frontend/src/pages/Notes/NotesPage.jsx:150-153 | the notes become `WithoutNote` and the shown list is re-filtered, which is the old shown list without the note when that was up to date |
| NotesPage.NotesView.HandleToggleFavorite | star-note-frontend/src/pages/Notes/NotesPage.jsx:155-161 | the notes become `ToggledNotes` and the shown list is re-filtered |
| NotesPage.NotesView.HandleSaveNote | star-note-frontend/src/pages/Notes/NotesPage.jsx:163-187 | refused exactly for a blank title, changing nothing; otherwise the notes become `SavedNotes`, the editor closes and the shown list is re-filtered |
| FlashcardRoutes.ParseStatus | star-note-backend/models/Flashcard.js:23-27 | a status string passes the enum check only as the name of the status it yields |
| FlashcardRoutes.ParseStatusExact | star-note-backend/models/Flashcard.js:23-27 | each status passes the enum check under its own name and under no other |
| FlashcardRoutes.UniqueMeaning | star-note-backend/routes/flashcardRoutes.js:85 | `[...new Set(...)]` keeps the first occurrence of each element in order: no duplicates, the same elements, a subsequence |
| FlashcardRoutes.UniqueKeepsPrefix | star-note-backend/routes/flashcardRoutes.js:85 | a duplicate-free prefix comes out of `new Set` unchanged, ahead of the rest |
| FlashcardRoutes.CategoryMergeMeaning | star-note-backend/routes/flashcardRoutes.js:68-91 | the category list starts with the six defaults in order, has no duplicates and holds exactly the defaults and the user's categories |
| FlashcardRoutes.UpdateFields | star-note-backend/routes/flashcardRoutes.js:272-282 | an update never changes the owner, the status or the review data |
| FlashcardRoutes.UpdateFieldsSelects | star-note-backend/routes/flashcardRoutes.js:272-282 | each truthy body field replaces the stored one; a missing field keeps it |
| FlashcardRoutes.ImportCategory | star-note-backend/routes/flashcardRoutes.js:193-218 | an imported category is always allowed: an allowed one is kept, anything else becomes "Other" |
| FlashcardRoutes.PreparedCardsValid | star-note-backend/routes/flashcardRoutes.js:190-218 | every card a batch inserts is active, the importer's and has an allowed category |
| FlashcardRoutes.FavoriteToggle | star-note-backend/routes/flashcardRoutes.js:363 | the toggle never yields the trash, and yields "favorite" exactly from a status that is not |
| FlashcardRoutes.FavoriteToggleTwice | star-note-backend/routes/flashcardRoutes.js:363 | toggling twice restores an active or favourite card, and takes a trashed card to "active" |
| FlashcardRoutes.ListIds | star-note-backend/routes/flashcardRoutes.js:10-38 | a card is listed exactly when it is the user's and passes the status and category filters |
| FlashcardRoutes.Export | star-note-backend/routes/flashcardRoutes.js:158-178 | one entry per card id: exactly the user's cards outside the trash, each with its question, answer and category |
| FlashcardRoutes.FavoritesWithinTotal | star-note-backend/routes/flashcardRoutes.js:94-138 | the favourites counted are among the cards counted in the total, so never more of them |
| FlashcardRoutes.FlashcardStore.constructor | star-note-backend/models/Flashcard.js:1-51 | an empty collection |
| FlashcardRoutes.FlashcardStore.Create | star-note-backend/routes/flashcardRoutes.js:41-65 | 400 without question, answer or category; else 500 with the validation message when the schema refuses a value outside the enums; otherwise 201 with one new card that passes the schema, under a fresh id, active by default |
| FlashcardRoutes.FlashcardStore.Get | star-note-backend/routes/flashcardRoutes.js:236-249 | the caller's card, else 404 |
| FlashcardRoutes.FlashcardStore.CategoryList | star-note-backend/routes/flashcardRoutes.js:68-91 | 200 with the six defaults first, no duplicates, and exactly the defaults and the categories of the user's cards |
| FlashcardRoutes.FlashcardStore.Update | star-note-backend/routes/flashcardRoutes.js:252-290 | 400 when no field is given, 404 unless the caller owns the card, else the card becomes `UpdateFields` stamped with the time |
| FlashcardRoutes.FlashcardStore.Delete | star-note-backend/routes/flashcardRoutes.js:293-307 | removes exactly the caller's card, else 404 and nothing changes |
| FlashcardRoutes.FlashcardStore.MoveToTrash | star-note-backend/routes/flashcardRoutes.js:310-328 | the caller's card goes to the trash from any status; 404 for another's; 500 and nothing changes when the schema refuses the card on `save()` |
| FlashcardRoutes.FlashcardStore.Restore | star-note-backend/routes/flashcardRoutes.js:331-350 | only the caller's trashed card is found, and it becomes active; anything else is 404; 500 and nothing changes when the schema refuses it |
| FlashcardRoutes.FlashcardStore.ToggleFavorite | star-note-backend/routes/flashcardRoutes.js:353-377 | the caller's card takes `FavoriteToggle` of its status, which the reply carries; else 404; 500 and nothing changes when the schema refuses it |
| FlashcardRoutes.FlashcardStore.TrackReview | star-note-backend/routes/flashcardRoutes.js:380-403 | the review count goes up by one and the review time is stamped; else 404; 500 and nothing changes when the schema refuses the card |
| FlashcardRoutes.FlashcardStore.EmptyTrash | star-note-backend/routes/flashcardRoutes.js:141-155 | exactly the user's trashed cards are removed, and the reply counts them |
| FlashcardRoutes.FlashcardStore.BatchImport | star-note-backend/routes/flashcardRoutes.js:181-231 | 400 for a missing or empty array; 400 with nothing inserted when any card lacks a question or answer; else 201 with every card `Prepared` under fresh ids |
| FlashcardRoutes.FlashcardStore.InsertMany | star-note-backend/routes/flashcardRoutes.js:222 | the documents are added under consecutive fresh ids and nothing else changes |
| NoteRoutes.CoverImage | star-note-backend/routes/noteRoutes.js:113-118 | an upload wins, then a non-empty `cover_image` in the body, then the stored image |
| NoteRoutes.NewCategory | star-note-backend/routes/noteRoutes.js:44 | a missing category is "personal"; a given one is lower-cased |
| NoteRoutes.LowerIdempotent | star-note-backend/models/Note.js:33-37 | lower-casing a stored category again changes nothing |
| NoteRoutes.Merged | star-note-backend/routes/noteRoutes.js:121-129 | the body's fields replace the stored ones, the category through the lower-casing setter; owner kept, cover and time set |
| NoteRoutes.FavoriteToggle | star-note-backend/routes/noteRoutes.js:190-218 | the toggle yields a valid status other than trash, and "favorite" exactly from a status that is not |
| NoteRoutes.ListIds | star-note-backend/routes/noteRoutes.js:56-77 | a note is listed exactly when it is the user's and has the status asked for, or is outside the trash when none is asked for |
| NoteRoutes.ListSplitsNotes | star-note-backend/routes/noteRoutes.js:63-69 | the default listing and the trash listing are disjoint and together hold all the user's notes |
| NoteRoutes.Limit | star-note-backend/routes/noteRoutes.js:281 | `.limit(n)` gives the first min(n, length) entries |
| NoteRoutes.NoteStore.constructor | star-note-backend/models/Note.js:1-47 | an empty collection |
| NoteRoutes.NoteStore.Create | star-note-backend/routes/noteRoutes.js:31-53 | 201 with one new note that passes the schema, under a fresh id, exactly when owner, title and content are given and the status is valid; else 500 with the validation message and nothing changes |
| NoteRoutes.NoteStore.List | star-note-backend/routes/noteRoutes.js:56-77 | 400 without a user, else `ListIds` |
| NoteRoutes.NoteStore.Get | star-note-backend/routes/noteRoutes.js:80-96 | 400 without a user, 404 unless the user owns the note, else the note |
| NoteRoutes.NoteStore.Update | star-note-backend/routes/noteRoutes.js:98-135 | 400 without a user, 404 unless owned, else the note becomes `Merged` with `CoverImage` |
| NoteRoutes.NoteStore.MoveToTrash | star-note-backend/routes/noteRoutes.js:138-160 | 400, 404, else the owner's note goes to the trash; 500 and nothing changes when the schema refuses it on `save()` |
| NoteRoutes.NoteStore.Restore | star-note-backend/routes/noteRoutes.js:163-187 | 400, 404 unless the note is the user's and in the trash, else it becomes active; 500 and nothing changes when the schema refuses it |
| NoteRoutes.NoteStore.ToggleFavorite | star-note-backend/routes/noteRoutes.js:190-218 | 400, 404, else the status becomes `FavoriteToggle` of it; 500 and nothing changes when the schema refuses it |
| NoteRoutes.NoteStore.Delete | star-note-backend/routes/noteRoutes.js:221-241 | 400, 404, else exactly that note is removed |
| NoteRoutes.NoteStore.EmptyTrash | star-note-backend/routes/noteRoutes.js:244-263 | 400, else exactly the user's trashed notes are removed and counted |
| NoteRoutes.NoteStore.Stats | star-note-backend/routes/noteRoutes.js:266-289 | 400, else the count of the user's notes outside the trash and at most three recent ones, all of them such notes and never more than the count |
| UserRoutes.Public | star-note-backend/routes/userRoutes.js:48-56 | the reply's user carries the stored id, name, email, bio and picture |
| UserRoutes.PublicHidesPassword | star-note-backend/routes/userRoutes.js:48-56 | the reply does not depend on the password |
| UserRoutes.Profiled | star-note-backend/routes/userRoutes.js:165-171 | username and email change only when given non-empty; bio and picture whenever given; the password never |
| UserRoutes.ProfiledNothing | star-note-backend/routes/userRoutes.js:165-171 | an update naming no field changes only the time |
| UserRoutes.ProfiledKeepsUnique | star-note-backend/routes/userRoutes.js:146-151 | an update that passed the email check keeps emails unique |
| UserRoutes.UserStore.constructor | star-note-backend/routes/userRoutes.js:1-25 | no users |
| UserRoutes.UserStore.Register | star-note-backend/routes/userRoutes.js:26-62 | 400 when the email is taken; otherwise one new user under a fresh id with the hashed password, and emails stay unique |
| UserRoutes.UserStore.Login | star-note-backend/routes/userRoutes.js:65-110 | succeeds exactly when a user with that email has a matching password; every failure is the same 400 |
| UserRoutes.UserStore.Me | star-note-backend/routes/userRoutes.js:113-128 | 400 without an id, 404 for an unknown one, else the user without the password |
| UserRoutes.UserStore.UpdateProfile | star-note-backend/routes/userRoutes.js:131-190 | 400/404; 400 when the new email, then the new username, belongs to someone else; else `Profiled`, and emails stay unique |
| UserRoutes.UserStore.UploadProfilePicture | star-note-backend/routes/userRoutes.js:193-270 | 400 without a user or a file, 404 for an unknown user, else only the picture and time change |
| PomodoroRoutes.OrElse | star-note-backend/routes/pomodoroRoutes.js:17-18 | `value \|\| fallback` on numbers: the value unless it is 0 |
| PomodoroRoutes.NewTimer | star-note-backend/routes/pomodoroRoutes.js:23-28 | a first timer takes the values given, else 4 sessions of 25 minutes, with xp 0 |
| PomodoroRoutes.Resettled | star-note-backend/routes/pomodoroRoutes.js:13-21 | later settings replace only the values given; owner and xp kept |
| PomodoroRoutes.ResettledSame | star-note-backend/routes/pomodoroRoutes.js:13-21 | posting the stored values back changes only the time |
| PomodoroRoutes.XpAfterSession | star-note-backend/routes/pomodoroRoutes.js:71 | the xp goes up by one, from 0 when it is missing |
| PomodoroRoutes.TimerStore.constructor | star-note-backend/models/PomodoroTimer.js:1-39 | no timers |
| PomodoroRoutes.TimerStore.Save | star-note-backend/routes/pomodoroRoutes.js:6-35 | 400 without a user; 200 resettles the user's timer; 201 creates one; afterwards the user has exactly one timer |
| PomodoroRoutes.TimerStore.Load | star-note-backend/routes/pomodoroRoutes.js:38-53 | 400, 404 when the user has no timer, else the user's timer |
| PomodoroRoutes.TimerStore.IncrementXp | star-note-backend/routes/pomodoroRoutes.js:56-78 | 400, 404 unless the user owns the timer, else its xp becomes `XpAfterSession` |

## Left out

- Network, HTTP framing, JSON bodies, JWT signing and the `auth` middleware (server.js): a route method takes the caller's id directly, as `userId` or `Option`.
- The database is a map from id to document. Fresh ids come from a counter. A database failure (the catch-all 500) is not modelled except where the schema refuses a document.
- The User model is not part of this model. Its defaults and indexes are taken from the routes: bio and picture start as "", and email uniqueness is enforced by the routes alone.
- bcrypt's salt and cost: `Hash` and `Matches` are exact inverses on the password.
- Mongoose's own error texts: a schema refusal is a 500 with one fixed message per collection (`Invalid`).
- Sorting by `updatedAt`: `NoteRoutes.NoteStore.Stats` takes the database's order as a parameter, and `List` returns a set of ids.
- The regular-expression `search` of flashcard `GET /` (flashcardRoutes.js:21-27), the `categoryStats` aggregation and `reviewedLast7Days` of flashcard `GET /stats`, and the image routes (flashcardRoutes.js:406-462) are not modelled.
- Route order: note `GET /stats` is registered after `GET /:id`, so Express sends `/stats` to the single-note handler. The model treats each handler on its own.
- Cloudinary and multer uploads: the uploaded file's URL is a parameter (`uploaded`, `url`).
- Timers, intervals, the alarm sound, `alert`, `console` and the mock data's contents: a tick is a method call, and loaded notes are a parameter.
- Dates are integers.
- `toLowerCase` covers ASCII only.
- `null`/`undefined` are `None`, or "" where the code only tests truthiness. A falsy number is 0.
- The unreachable `default` branch of `resetTimer`'s mode switch.
- The toolbar component and the other pages (dashboard, landing, profile) are not part of this model.
- FlashcardsPage.FlashcardsView.PrevCard: requires a non-empty list. On an empty one the source computes `NaN`.
- FlashcardsPage.FlashcardsView.NextCard: requires an index inside the shown list, which study mode keeps.
- FlashcardsPage.FlashcardsView.HandleSaveCard: requires an open draft, which the editor guarantees.
- FlashcardsPage.FlashcardsView.HandleCardChange: requires an open draft, which the editor guarantees.
- NotesPage.NotesView.HandleNoteChange: requires an open draft, which the editor guarantees.
- NotesPage.NotesView.HandleSaveNote: requires an open draft, which the editor guarantees.
- PomodoroRoutes.TimerStore.Load: the timer is specified as one of the user's. The invariant makes it the only one.
- NoteRoutes.NoteStore.Stats: the three recent notes are the first three of a given order, not a sort by time. The order must list each of the user's notes outside the trash exactly once, as the database's sorted query does.
- Atomicity: each route runs as one step. In the source, requests can interleave at every `await`.
- UserRoutes.UserStore.Register: emails stay unique only when requests run one at a time. The check for a taken email and the insert are separate awaits (userRoutes.js:31-47), and the User model's unique index is not part of this model.
- UserRoutes.UserStore.UpdateProfile: the same holds for its email and username checks (userRoutes.js:146-171).
- PomodoroRoutes.TimerStore.Save: at most one timer per user only when requests run one at a time. The lookup and the create are separate awaits (pomodoroRoutes.js:13-29), and `user_id` has no unique index.
- NoteCard.TruncateText: lengths count Dafny characters (Unicode scalar values). The source's `length` and `substring` count UTF-16 code units (NoteCard.jsx:56-58), so an emoji counts 2 there and 1 here, and the cut can fall elsewhere or split a surrogate pair.
- The flashcards page's re-fetch effect (FlashcardsPage.jsx:78-83), which a search or category change triggers, is a server request. Its answer arrives later through `CardsLoaded`.
