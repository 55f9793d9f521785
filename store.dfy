/** What the list page exchanges with the remote `songs` table: the records it
    reads, the requests it sends, and the outcomes the store can report. The store
    itself is not modelled; each call is one atomic step whose outcome the caller
    of the model supplies. */
module Store {

  /** Identifiers are assigned by the store and never interpreted by the page. */
  type SongId = int

  /** One row of the `songs` table as `select("*")` returns it; `createdAt` is the
      store-assigned `created_at` timestamp. */
  datatype Record = Record(id: SongId, title: string, isChecked: bool, createdAt: int)

  /** The requests the page issues, one constructor per call site. */
  datatype Request =
    | Insert(title: string, isChecked: bool)    // script.js:18-21
    | SelectAllByCreatedAt                      // script.js:36-39
    | DeleteById(id: SongId)                    // script.js:52
    | UpdateTitle(id: SongId, title: string)    // script.js:62-65
    | UpdateChecked(id: SongId, checked: bool)  // script.js:71-74

  /** The `{ error }` of a call that returns no data. */
  datatype Outcome = Ok | Failed(message: string)

  /** The outcome of the insert: on success the store-assigned fields of the one
      new record; the record echoes the title and flag that were sent. */
  datatype InsertOutcome = Inserted(id: SongId, createdAt: int) | InsertFailed(message: string)

  /** The outcome of the select: on success the records of the table, in the order
      they are stored; the query's ordering is `OrderByCreatedAt`. */
  datatype FetchOutcome = Fetched(table: seq<Record>) | FetchFailed(message: string)

  /** Ascending by `created_at`. */
  predicate ByCreatedAt(s: seq<Record>) {
    forall j, k :: 0 <= j < k < |s| ==> s[j].createdAt <= s[k].createdAt
  }

  /** `x` placed into the ascending `s` in front of the first record that is not
      older than it. */
  function InsertByCreatedAt(x: Record, s: seq<Record>): (r: seq<Record>)
    requires ByCreatedAt(s)
    ensures ByCreatedAt(r)
    ensures multiset(r) == multiset(s) + multiset{x}
    ensures |r| == |s| + 1
  {
    if s == [] || x.createdAt <= s[0].createdAt then
      OlderLeads(x, s);
      [x] + s
    else
      TailByCreatedAt(s);
      var rest := InsertByCreatedAt(x, s[1..]);
      NotOlderThanHead(s, x, rest);
      [s[0]] + rest
  }

  /** The tail of an ascending list is ascending. */
  lemma TailByCreatedAt(s: seq<Record>)
    requires ByCreatedAt(s) && s != []
    ensures ByCreatedAt(s[1..])
  {
    forall j, k | 0 <= j < k < |s| - 1 ensures s[1..][j].createdAt <= s[1..][k].createdAt {
      assert s[1..][j] == s[j + 1] && s[1..][k] == s[k + 1];
    }
  }

  /** A record not newer than the head of an ascending list can lead it. */
  lemma OlderLeads(x: Record, s: seq<Record>)
    requires ByCreatedAt(s) && (s == [] || x.createdAt <= s[0].createdAt)
    ensures ByCreatedAt([x] + s)
  {
    var r := [x] + s;
    forall j, k | 0 <= j < k < |r| ensures r[j].createdAt <= r[k].createdAt {
      assert r[k] == s[k - 1];
      if j > 0 { assert r[j] == s[j - 1]; } else if k > 1 { assert s[0].createdAt <= s[k - 1].createdAt; }
    }
  }

  /** The records of the ascending `s` after its head, together with one record
      newer than the head, are none of them older than the head; so the head can
      lead them, and together they are the records of `s` and `x`. */
  lemma NotOlderThanHead(s: seq<Record>, x: Record, rest: seq<Record>)
    requires ByCreatedAt(s) && s != [] && s[0].createdAt < x.createdAt
    requires ByCreatedAt(rest) && multiset(rest) == multiset(s[1..]) + multiset{x}
    ensures ByCreatedAt([s[0]] + rest)
    ensures multiset([s[0]] + rest) == multiset(s) + multiset{x}
  {
    assert s == [s[0]] + s[1..];
    forall k | 0 <= k < |rest| ensures s[0].createdAt <= rest[k].createdAt {
      assert rest[k] in multiset(rest);
      if rest[k] != x {
        assert rest[k] in s[1..];
      }
    }
    var r := [s[0]] + rest;
    forall j, k | 0 <= j < k < |r| ensures r[j].createdAt <= r[k].createdAt {
      assert r[k] == rest[k - 1];
      if j > 0 { assert r[j] == rest[j - 1]; }
    }
  }

  /** The result of `.order("created_at", { ascending: true })` over the table
      (script.js:39): the same records, ascending by `created_at`; records with the
      same timestamp keep their stored order. */
  function OrderByCreatedAt(table: seq<Record>): (r: seq<Record>)
    ensures ByCreatedAt(r)
    ensures multiset(r) == multiset(table)
    ensures |r| == |table|
  {
    if table == [] then []
    else
      assert table == [table[0]] + table[1..];
      InsertByCreatedAt(table[0], OrderByCreatedAt(table[1..]))
  }

  /** A table that is already ascending by `created_at` comes back in its stored
      order: with increasing timestamps, the query returns the insertion order. */
  lemma {:induction false} OrderByCreatedAtOfOrdered(table: seq<Record>)
    requires ByCreatedAt(table)
    ensures OrderByCreatedAt(table) == table
  {
    if table != [] {
      assert ByCreatedAt(table[1..]);
      OrderByCreatedAtOfOrdered(table[1..]);
    }
  }

  /** Two records stored newest first come back oldest first: the order of the
      result follows `created_at`, not the stored order. */
  lemma OrderByCreatedAtSwaps(a: Record, b: Record)
    requires a.createdAt < b.createdAt
    ensures OrderByCreatedAt([b, a]) == [a, b]
  {
    assert [b, a][1..] == [a];
    assert OrderByCreatedAt([a]) == [a] by { assert [a][1..] == []; }
    assert [a][1..] == [];
  }
}
