/** Short sessions on a fresh page, each returning what the user would see and
    what was sent, so that the behaviour of the handlers in module Page can be read
    off whole runs. Titles and store outcomes are parameters of each session. */
module Scenarios {
  import opened Text
  import opened Store
  import opened Songs
  import opened Page

  /** Adds two titles one after the other on a fresh page: both rows are appended
      in that order, unchecked, and exactly the two inserts were sent. */
  method AddTwo(first: string, second: string, idA: SongId, idB: SongId, atA: int, atB: int)
    returns (page: SongList)
    requires first != [] && Trimmed(first) && second != [] && Trimmed(second)
    ensures fresh(page) && page.Valid()
    ensures page.rows == [Render(Record(idA, first, false, atA)), Render(Record(idB, second, false, atB))]
    ensures page.sent == [Insert(first, false), Insert(second, false)]
  {
    page := new SongList(true);
    page.ShowForm();
    page.TypeAddInput(first);
    TrimOfTrimmed(first);
    page.SubmitAdd(Inserted(idA, atA));
    assert page.sent == [Insert(first, false)];
    assert page.rows == [Render(Record(idA, first, false, atA))];
    page.ShowForm();
    page.TypeAddInput(second);
    TrimOfTrimmed(second);
    page.SubmitAdd(Inserted(idB, atB));
  }

  /** Adds two titles, then reloads from a table that stores the two records in the
      reverse order, with strictly increasing creation times: the ordering by
      `created_at` puts them back in insertion order, and exactly two inserts and one
      select were sent. */
  method AddTwoThenReload(first: string, second: string, idA: SongId, idB: SongId, atA: int, atB: int)
    returns (titles: seq<string>, sent: seq<Request>)
    requires first != [] && Trimmed(first) && second != [] && Trimmed(second) && atA < atB
    ensures titles == [first, second]
    ensures sent == [Insert(first, false), Insert(second, false), SelectAllByCreatedAt]
  {
    var page := AddTwo(first, second, idA, idB, atA, atB);
    var a, b := Record(idA, first, false, atA), Record(idB, second, false, atB);
    OrderByCreatedAtSwaps(a, b);
    page.FetchSongs(Fetched([b, a]));
    assert Records(page.rows) == [a, b];
    assert page.rows[0].title == a.title && page.rows[1].title == b.title;
    titles := [page.rows[0].title, page.rows[1].title];
    sent := page.sent;
  }

  /** Enter on an add field holding only whitespace: nothing is sent, nothing is
      added and the form stays open, whatever the store would have answered. */
  method BlankAddIsDropped(blank: string, outcome: InsertOutcome)
    returns (count: nat, sent: seq<Request>, formHidden: bool)
    requires AllSpace(blank)
    ensures count == 0 && sent == [] && !formHidden
  {
    var page := new SongList(true);
    page.ShowForm();
    page.TypeAddInput(blank);
    TrimEmptyIffAllSpace(blank);
    page.SubmitAdd(outcome);
    count, sent, formHidden := |page.rows|, page.sent, page.formHidden;
  }

  /** Opens an editor on the first row, types into it, then opens one on the
      second: the first row is back to its title with the typed text discarded,
      and only the second row is editing. Nothing but the load was sent. */
  method SecondEditorRevertsFirst(a: Record, b: Record, typed: string)
    returns (first: Row, second: Row, sent: seq<Request>)
    requires a.createdAt < b.createdAt
    ensures first == Render(a)
    ensures second == Render(b).(mode := Editing(b.title, b.title))
    ensures sent == [SelectAllByCreatedAt]
  {
    var page := new SongList(true);
    OrderByCreatedAtOfOrdered([a, b]);
    page.FetchSongs(Fetched([a, b]));
    page.TriggerEditMode(0);
    page.TypeInEditor(0, typed);
    page.TriggerEditMode(1);
    first, second, sent := page.rows[0], page.rows[1], page.sent;
  }

  /** Renames a song to a new title typed with surrounding whitespace while the
      store rejects the update: the row still shows the new, trimmed title, and the
      rejected request is the only trace. */
  method RejectedRenameStillShows(song: Record, newTitle: string, pre: string, post: string, message: string)
    returns (shown: string, sent: seq<Request>)
    requires newTitle != [] && Trimmed(newTitle) && newTitle != song.title
    requires AllSpace(pre) && AllSpace(post)
    ensures shown == newTitle
    ensures sent == [SelectAllByCreatedAt, UpdateTitle(song.id, newTitle)]
  {
    var page := new SongList(true);
    page.FetchSongs(Fetched([song]));
    assert page.rows == [Render(song)];
    page.TriggerEditMode(0);
    var text := pre + newTitle + post;
    page.TypeInEditor(0, text);
    assert page.rows == [Render(song).(mode := Editing(song.title, text))];
    assert page.sent == [SelectAllByCreatedAt];
    TrimPadded(pre, newTitle, post);
    assert CommittedTitle(page.rows[0]) == newTitle;
    page.ConfirmEdit(0, Failed(message));
    shown, sent := page.rows[0].title, page.sent;
  }

  /** Confirms an editor whose text differs from the title only by surrounding
      whitespace: the span comes back unchanged and nothing is sent. */
  method UnchangedRenameSendsNothing(song: Record, pre: string, post: string, outcome: Outcome)
    returns (row: Row, sent: seq<Request>)
    requires song.title != [] && Trimmed(song.title)
    requires AllSpace(pre) && AllSpace(post)
    ensures row == Render(song)
    ensures sent == [SelectAllByCreatedAt]
  {
    var page := new SongList(true);
    page.FetchSongs(Fetched([song]));
    assert page.rows == [Render(song)];
    page.TriggerEditMode(0);
    page.TypeInEditor(0, pre + song.title + post);
    TrimPadded(pre, song.title, post);
    page.ConfirmEdit(0, outcome);
    row, sent := page.rows[0], page.sent;
  }

  /** A delete the store rejects leaves the row in place; a second, accepted delete
      removes it. Both deletes were sent. */
  method RejectedDeleteKeepsRow(song: Record, message: string)
    returns (afterReject: seq<Row>, afterAccept: seq<Row>, sent: seq<Request>)
    ensures afterReject == [Render(song)] && afterAccept == []
    ensures sent == [SelectAllByCreatedAt, DeleteById(song.id), DeleteById(song.id)]
  {
    var page := new SongList(true);
    page.FetchSongs(Fetched([song]));
    assert page.rows == [Render(song)] && page.sent == [SelectAllByCreatedAt];
    page.DeleteSong(0, Failed(message));
    assert page.sent == [SelectAllByCreatedAt, DeleteById(song.id)];
    afterReject := page.rows;
    page.DeleteSong(0, Ok);
    afterAccept, sent := page.rows, page.sent;
  }

  /** Two changes of the same checkbox send two updates, the flipped value and
      then the original one, and leave the checkbox as it was. */
  method ToggleTwiceSendsBoth(song: Record) returns (checked: bool, sent: seq<Request>)
    ensures checked == song.isChecked
    ensures sent == [SelectAllByCreatedAt, UpdateChecked(song.id, !song.isChecked), UpdateChecked(song.id, song.isChecked)]
  {
    var page := new SongList(true);
    page.FetchSongs(Fetched([song]));
    assert page.rows == [Render(song)];
    page.CheckboxChanged(0);
    page.CheckboxChanged(0);
    checked, sent := page.rows[0].isChecked, page.sent;
  }
}
