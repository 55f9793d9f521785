# Playlistbox song list, modelled in Dafny

This project models the song list page of playlistbox (`script.js`).
The page shows the rows of a remote `songs` table. It lets the user add a title, tick a
song's checkbox, delete a song, and rename a song in an inline editor opened by a double
click. The document is abstracted into a sequence of rows. Each row has the song's id,
title, checked state and creation time, plus a mode: the title span (`Display`) or an
edit input (`Editing(originalTitle, currentText)`). Every call to the remote store is one
atomic step. The caller of the model supplies its outcome, and the request is appended to
a log of sent requests, so "no remote call" can be stated.

Modules, in dependency order:

- `Text` (`text.dfy`) models the ECMAScript `String.prototype.trim` used by the add field
  and the editor. It characterises trim as the slice left once whitespace is cut from
  both ends, and proves that the result is empty exactly for blank input.
- `Store` (`store.dfy`) holds the records, requests and outcomes exchanged with the
  table. It defines the meaning of `.order("created_at", { ascending: true })`.
- `Songs` (`songs.dfy`) holds the rows as values, together with the invariant every
  handler keeps: at most one editor is open, and it remembers its song's current
  title. It also holds one specification function per change a handler makes to the
  list, with lemmas relating them.
- `Page` (`page.dfy`) defines class `SongList`, with the rows, the add field, the form's
  visibility and the request log as fields. Each handler is a method that updates
  them the way the script does, with loops for the two `forEach` calls. A method that
  changes the rows is proved to leave them equal to its specification function in
  `Songs`; every method states exactly which requests it sends and which other fields
  it leaves alone.
- `Scenarios` (`scenarios.dfy`) holds short sessions on a fresh page, each proving what
  the user sees afterwards and every request that was sent.

A rename the store rejects still shows the new title (`Page.SongList.ConfirmEdit`,
`Scenarios.RejectedRenameStillShows`). After `await updateSongTitle(...)` the script
sets `song.title` and draws a new span with the new text unconditionally. The success
branch of `updateSongTitle` writes only into the span that was already replaced by the
edit input. The model reproduces this behaviour as written.

## Model

| member | source | states |
|---|---|---|
| Text.Trim | script.js:15 | The trim has no whitespace at either end and is no longer than its input. |
| Text.TrimIsCore | script.js:15 | Every string is its leading whitespace, then its trim, then whitespace: the trim is exactly the slice between the whitespace at both ends. |
| Text.TrimPadded | script.js:116 | Conversely, any whitespace placed around a non-empty string without whitespace at its ends is removed again by trimming. |
| Text.TrimEmptyIffAllSpace | script.js:15-16 | The trim is empty if and only if the input is all whitespace (including the empty string), so `!title` rejects exactly the blank inputs. |
| Text.TrimOfTrimmed | script.js:116-117 | A string without whitespace at its ends is its own trim. |
| Text.TrimIdempotent | script.js:116 | Trimming twice gives the same as trimming once. |
| Store.InsertByCreatedAt | script.js:39 | Inserting a record into a list ascending by `created_at` keeps it ascending, adds exactly that record and keeps every other. |
| Store.OrderByCreatedAt | script.js:36-39 | The query result is the table's records, each as often as stored, ascending by `created_at`. |
| Store.OrderByCreatedAtOfOrdered | script.js:39 | A table already ascending by `created_at` comes back in its stored order. |
| Store.OrderByCreatedAtSwaps | script.js:39 | Two records stored newest first come back oldest first: the result follows `created_at`, not the stored order. |
| Songs.Render | script.js:140-151 | A new row shows its span, and reading the row back gives exactly the record it was drawn from. |
| Songs.RenderAll | script.js:46-47 | Drawing the records into an empty list gives one row per record in the same order, with no editor open, and reading the rows back yields the records. |
| Songs.Appended | script.js:173 | Appending keeps every earlier row, adds one row at the end showing exactly the new record in its span, and keeps the invariant. |
| Songs.Revert | script.js:92-100 | One editor forced shut shows its span again with the title it was opened with; id, checked state and creation time are kept. |
| Songs.Reverted | script.js:91-101 | Closing every editor leaves none open; each row shows the title its editor was opened with; ids, checked states and creation times are unchanged; in a list obeying the invariant the records are unchanged. |
| Songs.Opened | script.js:89-111 | After opening, exactly the target row is editing, with original title and text both equal to its title; every other row shows its closed title; ids, checked states and positions are unchanged; the invariant holds. |
| Songs.CommittedTitle | script.js:116-117 | Enter commits nothing if and only if the trimmed text is empty or equals the song's title; a committed title is the trimmed text, differs from the old title and has no whitespace at its ends. |
| Songs.Confirmed | script.js:116-126 | After Enter the row shows its span again: with the committed title if there is one, its unchanged title otherwise; id, checked state and creation time are kept. |
| Songs.ConfirmedValid | script.js:114-127 | Confirming the one open editor keeps the invariant and leaves no editor open. |
| Songs.ConfirmUntouched | script.js:103-121 | Enter in an editor where nothing was typed commits nothing if and only if the title is blank or has no whitespace at its ends; in both cases the list equals the one where every editor was closed. |
| Songs.Removed | script.js:57 | Removing row `i` drops exactly that row; the rows before it and after it keep their order; the multiset of rows loses exactly that one. |
| Songs.Toggled | script.js:151-155 | Only the checked state of row `i` flips; its title, id, mode and position and every other row are unchanged. |
| Songs.ToggledTwice | script.js:153-155 | Two changes of the same checkbox restore the list. |
| Songs.ReloadShowsTable | script.js:35-47 | A successful reload shows every record of the table once, ascending by `created_at`, with no editor open; when the table is already ascending the list shows it in stored order. |
| Page.SongList.constructor | script.js:1-4 | The page starts with an empty list, an empty add field and no request sent. |
| Page.SongList.ShowForm | script.js:7-10 | The "+" button reveals the form; nothing else changes. |
| Page.SongList.RenderSong | script.js:132-174 | One row for the record is appended to the list; nothing else changes. |
| Page.SongList.SubmitAdd | script.js:13-31 | Blank input: nothing changes and nothing is sent. Otherwise exactly one insert of the trimmed title, unchecked, is sent. On failure nothing else changes. On success exactly one row is appended, the field is cleared and the form is hidden. |
| Page.SongList.FetchSongs | script.js:35-48 | Exactly one ordered select is sent. On failure the list is untouched; on success the loop leaves the list equal to the rendered query result. |
| Page.SongList.DeleteSong | script.js:51-58 | Exactly one delete of the row's id is sent. On failure every row is unchanged; on success exactly that row is removed. |
| Page.SongList.ToggleChecked | script.js:70-75 | Exactly one `is_checked` update for the given id and value is sent; no row changes. |
| Page.SongList.CheckboxChanged | script.js:153-155 | The row's checkbox flips and one update carrying the new value for that row's id is sent; titles and positions are unchanged. |
| Page.SongList.TriggerEditMode | script.js:89-112 | The loop closes every open editor, then the target row opens; the result equals `Songs.Opened`, and nothing is sent. |
| Page.SongList.UpdateSongTitle | script.js:61-67 | Exactly one title update is sent; the rows are unchanged whatever the outcome, since the success branch writes into a span no longer in the list. |
| Page.SongList.ConfirmEdit | script.js:114-127 | Empty or unchanged trimmed text: the span returns with the title and nothing is sent. Otherwise one title update is sent and the row shows the new title whatever the outcome. No editor is left open. |
| Scenarios.AddTwo | script.js:13-31 | Two adds on a fresh page append both rows in order, unchecked, after exactly two inserts. |
| Scenarios.AddTwoThenReload | script.js:13-48 | After two adds and a reload of a table that stores them newest first, with strictly increasing creation times, the list shows the two titles in insertion order. |
| Scenarios.BlankAddIsDropped | script.js:15-16 | Enter on an all-whitespace add field sends nothing, adds nothing and leaves the form open, whatever the store would answer. |
| Scenarios.SecondEditorRevertsFirst | script.js:91-111 | Opening a second editor discards the text typed into the first, which shows its title again, and only the second row is editing; nothing but the load was sent. |
| Scenarios.RejectedRenameStillShows | script.js:114-127 | A rename the store rejects still shows the new trimmed title; the rejected update is the only request after the load. |
| Scenarios.UnchangedRenameSendsNothing | script.js:116-121 | Text equal to the title up to surrounding whitespace restores the row unchanged and sends nothing. |
| Scenarios.RejectedDeleteKeepsRow | script.js:51-58 | A rejected delete keeps the row; an accepted one removes it; both deletes of the song's id were sent, after the load. |
| Scenarios.ToggleTwiceSendsBoth | script.js:153-155 | Two changes of one checkbox send the flipped and then the original value, and the checkbox ends as it started. |

## Left out

- Presentation: CSS classes, the staggered animation delay (the `index` parameter of `renderSong`) and focus handling (script.js:9, 108-112, 134-137).
- `formatTanggal` and the date display (script.js:178 onwards), which depend on locale-aware `Date` formatting in the host.
- The Supabase client, the network and `async`/`await` scheduling. Each remote call is one atomic step whose outcome is a parameter. No two handlers interleave.
- `console.error` logging on failure paths: it only writes to the console.
- Keys other than Enter in the two `keydown` handlers. They do nothing in the script and have no method here.
- The user's typing in the add field and in the editor is modelled by `Page.SongList.TypeAddInput` and `Page.SongList.TypeInEditor`. They are input steps, with no source lines.
- Store.OrderByCreatedAt: records with equal `created_at` keep their stored order. The query does not fix an order for ties, so the model picks one.
- Page.SongList.SubmitAdd: the inserted record is assumed to echo the title and `is_checked: false` that were sent, with the store supplying only the id and `created_at`. A store that rewrites the row on insert is not modelled.
- Page.SongList.TriggerEditMode: when it closes another editor, the script rebuilds that row's song object from the input's `data-song-id` string and `data-original-title`. The model keeps the row's own id and fields, so the change of the id from number to string is not modelled.
- DOM node identity is not modelled: the detached `oldSpan` and the replaced spans and inputs are represented only by the row's mode and title.
- There is no drag reordering and no `order` field. The list order comes only from `created_at` and from appending.
- UTF-16 strings: a Dafny `string` is a sequence of Unicode scalar values, while a script string is a sequence of UTF-16 code units, so strings holding lone surrogates are not modelled. Every character `trim` removes lies in the Basic Multilingual Plane, so `trim` and `===` agree with the model on every string it can hold.
