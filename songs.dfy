/** The rows of the song list as plain values, and the specification of every change
    the page's handlers make to them. The page (module Page) performs these changes
    step by step; here they are stated as functions of the old rows, with what each
    one promises. */
module Songs {
  import opened Text
  import opened Store

  /** What a row's title region holds: the title span, or the edit input together
      with the `data-original-title` it was opened with and the text typed so far. */
  datatype Mode = Display | Editing(originalTitle: string, currentText: string)

  /** One `<li>` of the list: the song object its handlers close over (`id`,
      `title`, `createdAt`), the state of its checkbox and its title region. The
      title span always shows `title`. */
  datatype Row = Row(id: SongId, title: string, isChecked: bool, createdAt: int, mode: Mode)

  /** At most one edit input is in the list. */
  predicate SingleEditor(rows: seq<Row>) {
    forall j, k :: 0 <= j < |rows| && 0 <= k < |rows| && rows[j].mode.Editing? && rows[k].mode.Editing? ==> j == k
  }

  /** An open editor remembers the title its song had when it was opened, and
      that title has not changed since. */
  predicate EditorsHoldTitle(rows: seq<Row>) {
    forall k :: 0 <= k < |rows| && rows[k].mode.Editing? ==> rows[k].mode.originalTitle == rows[k].title
  }

  /** The invariant every handler keeps. */
  predicate Valid(rows: seq<Row>) {
    SingleEditor(rows) && EditorsHoldTitle(rows)
  }

  /** Every row shows its title span. */
  predicate NoEditor(rows: seq<Row>) {
    forall k :: 0 <= k < |rows| ==> rows[k].mode == Display
  }

  /** `renderSong`: a new row shows the record's title and checked state
      (script.js:132-174). */
  function Render(rec: Record): (row: Row)
    ensures row.mode == Display && RecordOf(row) == rec
  {
    Row(rec.id, rec.title, rec.isChecked, rec.createdAt, Display)
  }

  /** The song object a row carries, read back as a record. */
  function RecordOf(row: Row): Record {
    Record(row.id, row.title, row.isChecked, row.createdAt)
  }

  /** The records behind the rows, in list order. */
  function Records(rows: seq<Row>): seq<Record> {
    seq(|rows|, k requires 0 <= k < |rows| => RecordOf(rows[k]))
  }

  /** The rows `data.forEach(renderSong)` draws into an empty list
      (script.js:46-47): one row per record in the same order, no editor open,
      and reading the rows back gives the records. */
  function RenderAll(data: seq<Record>): (rows: seq<Row>)
    ensures |rows| == |data|
    ensures NoEditor(rows) && Valid(rows)
    ensures Records(rows) == data
  {
    seq(|data|, k requires 0 <= k < |data| => Render(data[k]))
  }

  /** `list.appendChild(li)` for a newly rendered record (script.js:173): the row
      goes at the end, every earlier row is kept, and the invariant survives. */
  function Appended(rows: seq<Row>, rec: Record): (r: seq<Row>)
    ensures |r| == |rows| + 1 && r[..|rows|] == rows
    ensures r[|rows|].mode == Display && RecordOf(r[|rows|]) == rec
    ensures Records(r) == Records(rows) + [rec]
    ensures Valid(rows) ==> Valid(r)
  {
    var r := rows + [Render(rec)];
    assert Records(r) == Records(rows) + [rec] by {
      assert |Records(r)| == |Records(rows) + [rec]|;
      forall k | 0 <= k < |r| ensures Records(r)[k] == (Records(rows) + [rec])[k] {
        if k < |rows| { assert r[k] == rows[k]; }
      }
    }
    r
  }

  /** The title a row shows once its editor, if any, is closed without a commit. */
  function ClosedTitle(row: Row): string {
    if row.mode.Editing? then row.mode.originalTitle else row.title
  }

  /** One editor forced shut: the span is rebuilt from `data-original-title`
      (script.js:92-100). */
  function Revert(row: Row): (r: Row)
    ensures r.mode == Display && r.title == ClosedTitle(row)
    ensures r.id == row.id && r.isChecked == row.isChecked && r.createdAt == row.createdAt
  {
    if row.mode.Editing? then row.(title := row.mode.originalTitle, mode := Display) else row
  }

  /** Every open editor forced shut (script.js:91-101): no editor is left, each
      row shows its closed title, and nothing else about any row changes. */
  function Reverted(rows: seq<Row>): (r: seq<Row>)
    ensures |r| == |rows| && NoEditor(r) && Valid(r)
    ensures forall k :: 0 <= k < |r| ==> r[k].title == ClosedTitle(rows[k])
    ensures EditorsHoldTitle(rows) ==> Records(r) == Records(rows)
    ensures forall k :: 0 <= k < |r| ==>
      r[k].id == rows[k].id && r[k].isChecked == rows[k].isChecked && r[k].createdAt == rows[k].createdAt
  {
    var r := seq(|rows|, k requires 0 <= k < |rows| => Revert(rows[k]));
    assert EditorsHoldTitle(rows) ==> Records(r) == Records(rows) by {
      if EditorsHoldTitle(rows) {
        forall k | 0 <= k < |r| ensures Records(r)[k] == Records(rows)[k] {
          assert r[k] == Revert(rows[k]);
        }
      }
    }
    r
  }

  /** `triggerEditMode` on the row at `i`, which shows its span (script.js:89-111):
      afterwards exactly that row is editing, with the original title and the
      input's text both set to its title; every other row shows its closed title;
      no id, checked state or position changes; in a valid list no title changes. */
  function Opened(rows: seq<Row>, i: nat): (r: seq<Row>)
    requires i < |rows| && rows[i].mode == Display
    ensures |r| == |rows| && Valid(r)
    ensures forall k :: 0 <= k < |r| ==> (r[k].mode.Editing? <==> k == i)
    ensures r[i].mode == Editing(rows[i].title, rows[i].title) && r[i].title == rows[i].title
    ensures forall k :: 0 <= k < |r| && k != i ==> r[k].title == ClosedTitle(rows[k])
    ensures forall k :: 0 <= k < |r| ==>
      r[k].id == rows[k].id && r[k].isChecked == rows[k].isChecked && r[k].createdAt == rows[k].createdAt
    ensures EditorsHoldTitle(rows) ==> Records(r) == Records(rows)
  {
    var closed := Reverted(rows);
    var r := closed[i := rows[i].(mode := Editing(rows[i].title, rows[i].title))];
    assert EditorsHoldTitle(rows) ==> Records(r) == Records(rows) by {
      if EditorsHoldTitle(rows) {
        forall k | 0 <= k < |r| ensures Records(r)[k] == Records(rows)[k] {
          assert Records(closed)[k] == Records(rows)[k];
        }
      }
    }
    r
  }

  /** The user types into the open editor of row `i`: only the input's text changes. */
  function Typed(rows: seq<Row>, i: nat, text: string): (r: seq<Row>)
    requires i < |rows| && rows[i].mode.Editing?
    ensures |r| == |rows| && Records(r) == Records(rows)
    ensures r[i].mode == Editing(rows[i].mode.originalTitle, text)
    ensures forall k :: 0 <= k < |r| && k != i ==> r[k] == rows[k]
    ensures Valid(rows) ==> Valid(r)
  {
    var r := rows[i := rows[i].(mode := Editing(rows[i].mode.originalTitle, text))];
    assert Records(r) == Records(rows) by {
      forall k | 0 <= k < |r| ensures Records(r)[k] == Records(rows)[k] {
        if k != i { assert r[k] == rows[k]; }
      }
    }
    r
  }

  /** The title an Enter in the editor of `row` commits (script.js:116-124): none
      when the trimmed text is empty or equals the song's title, the trimmed text
      otherwise. A committed title is new, non-empty and carries no whitespace at
      either end. */
  function CommittedTitle(row: Row): (t: string)
    requires row.mode.Editing?
    ensures t == [] || t == Trim(row.mode.currentText)
    ensures t == [] <==> (AllSpace(row.mode.currentText) || Trim(row.mode.currentText) == row.title)
    ensures t != [] ==> t != row.title && Trimmed(t)
  {
    TrimEmptyIffAllSpace(row.mode.currentText);
    var newTitle := Trim(row.mode.currentText);
    if newTitle == [] || newTitle == row.title then [] else newTitle
  }

  /** The row after an Enter in its editor (script.js:116-126): it shows its span
      again, with the committed title if there is one and its unchanged title
      otherwise; id, checked state and creation time are kept. */
  function Confirmed(row: Row): (r: Row)
    requires row.mode.Editing?
    ensures r.mode == Display
    ensures r.id == row.id && r.isChecked == row.isChecked && r.createdAt == row.createdAt
    ensures r.title == (if CommittedTitle(row) == [] then row.title else CommittedTitle(row))
  {
    var t := CommittedTitle(row);
    if t == [] then row.(mode := Display) else row.(title := t, mode := Display)
  }

  /** Confirming keeps the invariant and leaves no editor in the list when the
      confirmed row held the single one. */
  lemma ConfirmedValid(rows: seq<Row>, i: nat)
    requires i < |rows| && rows[i].mode.Editing? && Valid(rows)
    ensures Valid(rows[i := Confirmed(rows[i])])
    ensures NoEditor(rows[i := Confirmed(rows[i])])
  {
    var r := rows[i := Confirmed(rows[i])];
    forall k | 0 <= k < |r| ensures r[k].mode == Display {
      if k != i { assert !(rows[k].mode.Editing?) by { assert rows[i].mode.Editing?; } }
    }
  }

  /** Enter in a freshly opened editor, with nothing typed: it commits nothing exactly
      when the song's title is blank or already trimmed, and in both cases the list is
      as if every editor had just been forced shut. A title stored with whitespace at its
      ends is renamed to its trim. */
  lemma {:induction false} ConfirmUntouched(rows: seq<Row>, i: nat)
    requires i < |rows| && rows[i].mode == Display
    ensures CommittedTitle(Opened(rows, i)[i]) == [] <==> (AllSpace(rows[i].title) || Trimmed(rows[i].title))
    ensures AllSpace(rows[i].title) || Trimmed(rows[i].title) ==>
      Opened(rows, i)[i := Confirmed(Opened(rows, i)[i])] == Reverted(rows)
  {
    var t := rows[i].title;
    if AllSpace(t) || Trimmed(t) {
      TrimEmptyIffAllSpace(t);
      if Trimmed(t) { TrimOfTrimmed(t); }
      var o := Opened(rows, i);
      var r := o[i := Confirmed(o[i])];
      forall k | 0 <= k < |r| ensures r[k] == Reverted(rows)[k] {
        if k != i { assert r[k] == Reverted(rows)[k]; }
      }
    }
  }

  /** `element.remove()` on the row at `i` (script.js:57): exactly that row is
      gone, the others keep their relative order, and the invariant survives. */
  function Removed(rows: seq<Row>, i: nat): (r: seq<Row>)
    requires i < |rows|
    ensures |r| == |rows| - 1
    ensures forall k :: 0 <= k < i ==> r[k] == rows[k]
    ensures forall k :: i <= k < |r| ==> r[k] == rows[k + 1]
    ensures multiset(r) + multiset{rows[i]} == multiset(rows)
    ensures Valid(rows) ==> Valid(r)
  {
    assert rows == rows[..i] + [rows[i]] + rows[i + 1..];
    rows[..i] + rows[i + 1..]
  }

  /** The checkbox of row `i` flipped (script.js:153): only that row's checked
      state changes; its title, id, mode and position stay. */
  function Toggled(rows: seq<Row>, i: nat): (r: seq<Row>)
    requires i < |rows|
    ensures |r| == |rows|
    ensures r[i].isChecked == !rows[i].isChecked && r[i].(isChecked := rows[i].isChecked) == rows[i]
    ensures forall k :: 0 <= k < |r| && k != i ==> r[k] == rows[k]
    ensures Valid(rows) ==> Valid(r)
  {
    rows[i := rows[i].(isChecked := !rows[i].isChecked)]
  }

  /** Flipping a checkbox twice restores the row. */
  lemma ToggledTwice(rows: seq<Row>, i: nat)
    requires i < |rows|
    ensures Toggled(Toggled(rows, i), i) == rows
  {
  }

  /** A successful reload (script.js:35-47) shows the table's records, each once,
      ascending by `created_at`, with no editor open; when the stored order is
      already ascending the list shows exactly the stored order. */
  lemma {:induction false} ReloadShowsTable(table: seq<Record>)
    ensures var rows := RenderAll(OrderByCreatedAt(table));
      && ByCreatedAt(Records(rows))
      && multiset(Records(rows)) == multiset(table)
      && NoEditor(rows) && Valid(rows)
      && (ByCreatedAt(table) ==> Records(rows) == table)
  {
    if ByCreatedAt(table) {
      OrderByCreatedAtOfOrdered(table);
    }
  }
}
