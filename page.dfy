/** The list page of script.js as an object: the rows of `#song-list`, the add
    field and its form, and the requests sent to the remote `songs` table. Each
    handler of the page is a method that changes this state step by step, as the
    script changes the document, and is proved to match the function in module
    Songs that specifies it. Every remote call is one atomic step whose outcome
    the caller supplies. */
module Page {
  import opened Text
  import opened Store
  import opened Songs

  class SongList {
    /** The `<li>` children of `#song-list`, top to bottom. */
    var rows: seq<Row>
    /** The value of the add field `#song-input`. */
    var inputValue: string
    /** Whether `#form-container` carries the class `hidden`. */
    var formHidden: bool
    /** Every request issued to the remote store, oldest first. */
    var sent: seq<Request>

    /** At most one editor is open, and it holds its song's title. */
    predicate Valid()
      reads this
    {
      Songs.Valid(rows)
    }

    /** The page as loaded, before `fetchSongs` has run: an empty list, an empty add
        field, and nothing sent. */
    constructor (formInitiallyHidden: bool)
      ensures Valid()
      ensures rows == [] && inputValue == [] && formHidden == formInitiallyHidden && sent == []
    {
      rows := [];
      inputValue := [];
      formHidden := formInitiallyHidden;
      sent := [];
    }

    /** A click on the "+" button reveals the add form (script.js:7-10). */
    method ShowForm()
      modifies this
      ensures !formHidden
      ensures rows == old(rows) && inputValue == old(inputValue) && sent == old(sent)
    {
      formHidden := false;
    }

    /** The user edits the add field. */
    method TypeAddInput(text: string)
      modifies this
      ensures inputValue == text
      ensures rows == old(rows) && formHidden == old(formHidden) && sent == old(sent)
    {
      inputValue := text;
    }

    /** `renderSong`: builds the row for `rec` and appends it to the list
        (script.js:132-174). */
    method RenderSong(rec: Record)
      requires Valid()
      modifies this
      ensures Valid()
      ensures rows == Appended(old(rows), rec)
      ensures inputValue == old(inputValue) && formHidden == old(formHidden) && sent == old(sent)
    {
      rows := rows + [Render(rec)];
    }

    /** Enter in the add field (script.js:13-31). A title that is empty after
        trimming is dropped with nothing sent and nothing changed. Otherwise one
        insert of the trimmed title, unchecked, is sent; on success the new record
        is appended, the field is cleared and the form hidden; on failure nothing
        else changes. */
    method SubmitAdd(outcome: InsertOutcome)
      requires Valid()
      modifies this
      ensures Valid()
      ensures Trim(old(inputValue)) == [] ==>
        rows == old(rows) && sent == old(sent) && inputValue == old(inputValue) && formHidden == old(formHidden)
      ensures Trim(old(inputValue)) != [] ==>
        sent == old(sent) + [Insert(Trim(old(inputValue)), false)]
      ensures Trim(old(inputValue)) != [] && outcome.InsertFailed? ==>
        rows == old(rows) && inputValue == old(inputValue) && formHidden == old(formHidden)
      ensures Trim(old(inputValue)) != [] && outcome.Inserted? ==>
        rows == Appended(old(rows), Record(outcome.id, Trim(old(inputValue)), false, outcome.createdAt))
        && inputValue == [] && formHidden
    {
      var title := Trim(inputValue);
      if title == [] {
        return;
      }
      sent := sent + [Insert(title, false)];
      match outcome {
        case InsertFailed(_) =>
          return;
        case Inserted(id, createdAt) =>
          RenderSong(Record(id, title, false, createdAt));
          inputValue := [];
          formHidden := true;
      }
    }

    /** `fetchSongs` (script.js:35-48): one select ordered by `created_at` is sent;
        on success the list is emptied and every fetched record rendered in query
        order; on failure the list is left as it was. */
    method FetchSongs(outcome: FetchOutcome)
      requires Valid()
      modifies this
      ensures Valid()
      ensures sent == old(sent) + [SelectAllByCreatedAt]
      ensures outcome.FetchFailed? ==> rows == old(rows)
      ensures outcome.Fetched? ==> rows == RenderAll(OrderByCreatedAt(outcome.table))
      ensures inputValue == old(inputValue) && formHidden == old(formHidden)
    {
      sent := sent + [SelectAllByCreatedAt];
      if outcome.FetchFailed? {
        return;
      }
      var data := OrderByCreatedAt(outcome.table);
      rows := [];
      var k := 0;
      while k < |data|
        invariant 0 <= k <= |data|
        invariant |rows| == k && NoEditor(rows)
        invariant forall j :: 0 <= j < k ==> rows[j] == Render(data[j])
        invariant sent == old(sent) + [SelectAllByCreatedAt]
        invariant inputValue == old(inputValue) && formHidden == old(formHidden)
      {
        RenderSong(data[k]);
        k := k + 1;
      }
      assert rows == RenderAll(data);
    }

    /** `deleteSong` for the row at `i` (script.js:51-58, 165-167): one delete of
        its id is sent; the row is removed only once the store reports success. */
    method DeleteSong(i: nat, outcome: Outcome)
      requires Valid() && i < |rows|
      modifies this
      ensures Valid()
      ensures sent == old(sent) + [DeleteById(old(rows)[i].id)]
      ensures outcome.Ok? ==> rows == Removed(old(rows), i)
      ensures outcome.Failed? ==> rows == old(rows)
      ensures inputValue == old(inputValue) && formHidden == old(formHidden)
    {
      sent := sent + [DeleteById(rows[i].id)];
      if outcome.Failed? {
        return;
      }
      rows := rows[..i] + rows[i + 1..];
    }

    /** `toggleChecked` (script.js:70-75): one update of `is_checked`; its result is
        never read. */
    method ToggleChecked(id: SongId, checked: bool)
      modifies this
      ensures sent == old(sent) + [UpdateChecked(id, checked)]
      ensures rows == old(rows) && inputValue == old(inputValue) && formHidden == old(formHidden)
    {
      sent := sent + [UpdateChecked(id, checked)];
    }

    /** A change of the checkbox in row `i` (script.js:153-155): the checkbox has
        flipped, and its new value is sent for that row's id. */
    method CheckboxChanged(i: nat)
      requires Valid() && i < |rows|
      modifies this
      ensures Valid()
      ensures rows == Toggled(old(rows), i)
      ensures sent == old(sent) + [UpdateChecked(old(rows)[i].id, !old(rows)[i].isChecked)]
      ensures inputValue == old(inputValue) && formHidden == old(formHidden)
    {
      rows := rows[i := rows[i].(isChecked := !rows[i].isChecked)];
      ToggleChecked(rows[i].id, rows[i].isChecked);
    }

    /** `triggerEditMode` on row `i`, reached by a double click on its title span
        (script.js:82-84, 89-111): every open edit input is first replaced by a span
        showing its `data-original-title`, then row `i` gets an input holding its
        title. Nothing is sent. */
    method TriggerEditMode(i: nat)
      requires Valid() && i < |rows| && rows[i].mode == Display
      modifies this
      ensures Valid()
      ensures rows == Opened(old(rows), i)
      ensures sent == old(sent) && inputValue == old(inputValue) && formHidden == old(formHidden)
    {
      var k := 0;
      while k < |rows|
        invariant 0 <= k <= |rows| == |old(rows)|
        invariant forall j :: 0 <= j < k ==> rows[j] == Revert(old(rows)[j])
        invariant forall j :: k <= j < |rows| ==> rows[j] == old(rows)[j]
        invariant sent == old(sent) && inputValue == old(inputValue) && formHidden == old(formHidden)
      {
        if rows[k].mode.Editing? {
          var originalTitle := rows[k].mode.originalTitle;
          rows := rows[k := rows[k].(title := originalTitle, mode := Display)];
        }
        k := k + 1;
      }
      assert rows == Reverted(old(rows));
      var title := rows[i].title;
      rows := rows[i := rows[i].(mode := Editing(title, title))];
    }

    /** The user edits the text of the open editor in row `i`. */
    method TypeInEditor(i: nat, text: string)
      requires Valid() && i < |rows| && rows[i].mode.Editing?
      modifies this
      ensures Valid()
      ensures rows == Typed(old(rows), i, text)
      ensures sent == old(sent) && inputValue == old(inputValue) && formHidden == old(formHidden)
    {
      var originalTitle := rows[i].mode.originalTitle;
      rows := rows[i := rows[i].(mode := Editing(originalTitle, text))];
    }

    /** `updateSongTitle` (script.js:61-67): one update of the title is sent. On
        success the script writes the new title into the span it was handed, which
        its caller has already taken out of the list, so the rows are the same
        whatever the outcome. */
    method UpdateSongTitle(id: SongId, newTitle: string, outcome: Outcome)
      modifies this
      ensures sent == old(sent) + [UpdateTitle(id, newTitle)]
      ensures rows == old(rows) && inputValue == old(inputValue) && formHidden == old(formHidden)
    {
      sent := sent + [UpdateTitle(id, newTitle)];
    }

    /** Enter in the editor of row `i` (script.js:114-127). An empty or unchanged
        trimmed text restores the span with the song's title and sends nothing.
        Otherwise the title update is sent and, whatever its outcome, the song's
        title becomes the trimmed text and the span shows it. Either way no editor
        is left open. */
    method ConfirmEdit(i: nat, outcome: Outcome)
      requires Valid() && i < |rows| && rows[i].mode.Editing?
      modifies this
      ensures Valid() && NoEditor(rows)
      ensures rows == old(rows)[i := Confirmed(old(rows)[i])]
      ensures CommittedTitle(old(rows)[i]) == [] ==> sent == old(sent)
      ensures CommittedTitle(old(rows)[i]) != [] ==>
        sent == old(sent) + [UpdateTitle(old(rows)[i].id, CommittedTitle(old(rows)[i]))]
      ensures inputValue == old(inputValue) && formHidden == old(formHidden)
    {
      ConfirmedValid(rows, i);
      var song := rows[i];
      var newTitle := Trim(song.mode.currentText);
      if newTitle == [] || newTitle == song.title {
        rows := rows[i := song.(mode := Display)];
        return;
      }
      UpdateSongTitle(song.id, newTitle, outcome);
      rows := rows[i := song.(title := newTitle, mode := Display)];
    }
  }
}
