/** Streamed exports of a user's transactions (internal/export/wallet.go) over keyset pages
    (internal/db/export.sql.go). The table does not change while the export runs. */
module Export {
  import opened Options
  import opened Sorting
  import opened Paging

  const PAGE_SIZE: nat := 1000

  /** A transaction; `sortAt` is COALESCE(occurred_at, due_at), which a CHECK keeps present. */
  datatype Row = Row(id: nat, user: nat, deleted: bool, sortAt: int, content: string)

  /** id is the primary key. */
  ghost predicate UniqueIds(rows: seq<Row>) {
    forall i, j | 0 <= i < j < |rows| :: rows[i].id != rows[j].id
  }

  // ----- the two queries

  predicate LiveOf(r: Row, user: nat) { r.user == user && !r.deleted }

  predicate ById(a: Row, b: Row) { a.id < b.id }

  /** ORDER BY sort time DESC, id DESC */
  predicate Newest(a: Row, b: Row) { a.sortAt > b.sortAt || (a.sortAt == b.sortAt && a.id > b.id) }

  function AfterId(user: nat, after: nat): Row -> bool { (r: Row) => LiveOf(r, user) && r.id > after }

  function ExportTransactionsPage(rows: seq<Row>, user: nat, after: nat): seq<Row> {
    Take(Query(rows, AfterId(user, after), ById), PAGE_SIZE)
  }

  /** The cursor: none, or the sort time and id of the last row sent. */
  type Cursor = Option<(int, nat)>

  function BelowCursor(user: nat, cursor: Cursor): Row -> bool {
    (r: Row) =>
      LiveOf(r, user)
      && (cursor.None? || r.sortAt < cursor.value.0 || (r.sortAt == cursor.value.0 && r.id < cursor.value.1))
  }

  function ExportTransactionsCSVPage(rows: seq<Row>, user: nat, cursor: Cursor): seq<Row> {
    Take(Query(rows, BelowCursor(user, cursor), Newest), PAGE_SIZE)
  }

  lemma OrdersTotal(rows: seq<Row>)
    requires UniqueIds(rows)
    ensures Distinct(rows)
    ensures StrictWeakOrder(rows, ById) && NeverTies(rows, ById)
    ensures StrictWeakOrder(rows, Newest) && NeverTies(rows, Newest)
  {
    forall x, y | x in rows && y in rows && x != y
      ensures x.id != y.id
    {
      var i :| 0 <= i < |rows| && rows[i] == x;
      var j :| 0 <= j < |rows| && rows[j] == y;
      assert i < j || j < i;
    }
  }

  lemma TakeSlice<T(!new)>(s: seq<T>, m: nat, n: nat)
    requires m <= |s|
    ensures var t := Take(s[m..], n); t == s[m..m + |t|] && (|t| < n ==> m + |t| == |s|)
  {
  }

  /** What the JSON backup is to list: the user's live rows by id, but none with the nil id. */
  function BackupRows(rows: seq<Row>, user: nat): seq<Row> { Query(rows, AfterId(user, 0), ById) }

  /** What the CSV is to list: the user's live rows, newest first. */
  function CsvRows(rows: seq<Row>, user: nat): seq<Row> { Query(rows, BelowCursor(user, None), Newest) }

  /** The page after the first `m` rows holds the following ones. */
  lemma NextBackupPage(rows: seq<Row>, user: nat, m: nat)
    requires UniqueIds(rows) && 0 < m <= |BackupRows(rows, user)|
    ensures var all := BackupRows(rows, user);
            ExportTransactionsPage(rows, user, all[m - 1].id) == Take(all[m..], PAGE_SIZE)
  {
    hide *;
    OrdersTotal(rows);
    QueryOrdered(rows, AfterId(user, 0), ById);
    var all := BackupRows(rows, user);
    BackupQuery(rows, user, all[m - 1].id);
    assert all[m - 1] in all;
    BeyondById(user, all[m - 1]);
    QueryBeyond(rows, AfterId(user, 0), AfterId(user, all[m - 1].id), ById, m - 1);
  }

  lemma BackupQuery(rows: seq<Row>, user: nat, after: nat)
    ensures BackupRows(rows, user) == Query(rows, AfterId(user, 0), ById)
    ensures ExportTransactionsPage(rows, user, after) == Take(Query(rows, AfterId(user, after), ById), PAGE_SIZE)
  {
  }

  lemma BeyondById(user: nat, last: Row)
    ensures AfterId(user, 0)(last) ==> forall x :: AfterId(user, last.id)(x) <==> AfterId(user, 0)(x) && ById(last, x)
  {
  }

  lemma NextCsvPage(rows: seq<Row>, user: nat, m: nat)
    requires UniqueIds(rows) && 0 < m <= |CsvRows(rows, user)|
    ensures var all := CsvRows(rows, user); var last := all[m - 1];
            ExportTransactionsCSVPage(rows, user, Some((last.sortAt, last.id))) == Take(all[m..], PAGE_SIZE)
  {
    hide *;
    OrdersTotal(rows);
    var all := CsvRows(rows, user);
    CsvQuery(rows, user, all[m - 1]);
    BeyondCursor(user, all[m - 1]);
    QueryBeyond(rows, BelowCursor(user, None), BelowCursor(user, Some((all[m - 1].sortAt, all[m - 1].id))), Newest, m - 1);
  }

  lemma CsvQuery(rows: seq<Row>, user: nat, last: Row)
    ensures CsvRows(rows, user) == Query(rows, BelowCursor(user, None), Newest)
    ensures var cursor := Some((last.sortAt, last.id));
            ExportTransactionsCSVPage(rows, user, cursor) == Take(Query(rows, BelowCursor(user, cursor), Newest), PAGE_SIZE)
  {
    hide Query;
  }

  lemma BeyondCursor(user: nat, last: Row)
    ensures forall x :: BelowCursor(user, Some((last.sortAt, last.id)))(x) <==> BelowCursor(user, None)(x) && Newest(last, x)
  {
  }

  /** Both exports list each live row of the user once, in order; the backup lists all of them
      exactly when none has the nil id. */
  lemma ExportsAreComplete(rows: seq<Row>, user: nat)
    requires UniqueIds(rows)
    ensures var all := BackupRows(rows, user);
            && (forall i, j | 0 <= i < j < |all| :: all[i].id < all[j].id)
            && ((forall r :: r in all <==> r in rows && r.user == user && !r.deleted) <==>
                  forall r | r in rows && r.user == user && !r.deleted :: r.id != 0)
    ensures var all := CsvRows(rows, user);
            && (forall i, j | 0 <= i < j < |all| ::
                  all[j].sortAt < all[i].sortAt || (all[j].sortAt == all[i].sortAt && all[j].id < all[i].id))
            && forall r :: r in all <==> r in rows && r.user == user && !r.deleted
  {
    OrdersTotal(rows);
    QueryOrdered(rows, AfterId(user, 0), ById);
    QueryOrdered(rows, BelowCursor(user, None), Newest);
    InOrder(rows, BackupRows(rows, user), ById);
    InOrder(rows, CsvRows(rows, user), Newest);
    hide BackupRows;
    hide CsvRows;
  }

  lemma InOrder(rows: seq<Row>, all: seq<Row>, less: (Row, Row) -> bool)
    requires NeverTies(rows, less) && Sorted(all, less) && Distinct(all) && forall r | r in all :: r in rows
    ensures forall i, j | 0 <= i < j < |all| :: less(all[i], all[j])
  {
    forall i, j | 0 <= i < j < |all|
      ensures less(all[i], all[j])
    {
      assert all[i] in rows && all[j] in rows;
    }
  }

  // ----- texts

  function Join(parts: seq<string>): string {
    if parts == [] then ""
    else if |parts| == 1 then parts[0]
    else Join(parts[..|parts| - 1]) + "," + parts[|parts| - 1]
  }

  lemma {:induction false} JoinSnoc(parts: seq<string>, part: string)
    ensures Join(parts + [part]) == if parts == [] then part else Join(parts) + "," + part
  {
    assert (parts + [part])[..|parts|] == parts;
  }

  function Lines(line: Row -> string, rows: seq<Row>): string {
    if rows == [] then "" else Lines(line, rows[..|rows| - 1]) + line(rows[|rows| - 1])
  }

  function Member(key: string, text: string): string { key + ":" + text }

  function Members(sections: seq<(string, string)>): (r: seq<string>)
    ensures |r| == |sections|
  {
    seq(|sections|, i requires 0 <= i < |sections| => Member(sections[i].0, sections[i].1))
  }

  /** Every page fetched for a listing of `n` rows arrives: one more than the full ones. */
  ghost predicate AllArrive(n: nat, failing: nat -> bool) {
    forall i: nat | i * 1000 <= n :: !failing(i)
  }

  /** The pages fetched so far, the last one with `last` rows, are the first `m` rows, and none failed. */
  ghost predicate Arrived(fetches: nat, last: nat, m: nat, failing: nat -> bool) {
    && fetches > 0 && last <= PAGE_SIZE && (fetches - 1) * 1000 + last == m
    && forall i: nat | i < fetches :: !failing(i)
  }

  lemma NoneFailed(fetches: nat, last: nat, m: nat, failing: nat -> bool)
    requires Arrived(fetches, last, m, failing) && last < PAGE_SIZE
    ensures AllArrive(m, failing)
  {
  }

  lemma OneFails(fetches: nat, last: nat, m: nat, n: nat, failing: nat -> bool)
    requires Arrived(fetches, last, m, failing) && last == PAGE_SIZE && m <= n && failing(fetches)
    ensures !AllArrive(n, failing)
  {
  }

  lemma FirstArrives(last: nat, failing: nat -> bool)
    requires last <= PAGE_SIZE && !failing(0)
    ensures Arrived(1, last, last, failing)
  {
  }

  lemma OneMoreArrives(fetches: nat, last: nat, m: nat, next: nat, failing: nat -> bool)
    requires Arrived(fetches, last, m, failing) && last == PAGE_SIZE && next <= PAGE_SIZE && !failing(fetches)
    ensures Arrived(fetches + 1, next, m + next, failing)
  {
  }

  // ----- the JSON backup

  /** `m` rows were handed out, the last page among them, by so many fetches. */
  ghost predicate Stands(rows: seq<Row>, user: nat, page: seq<Row>, after: nat, fetches: nat, m: nat, failing: nat -> bool) {
    var all := BackupRows(rows, user);
    && UniqueIds(rows) && |page| <= m <= |all|
    && (|page| < PAGE_SIZE ==> m == |all|) && Arrived(fetches, |page|, m, failing)
    && (m > 0 ==> after == all[m - 1].id)
  }

  lemma LastPage(rows: seq<Row>, user: nat, page: seq<Row>, after: nat, fetches: nat, m: nat, failing: nat -> bool)
    requires Stands(rows, user, page, after, fetches, m, failing) && |page| < PAGE_SIZE
    ensures m == |BackupRows(rows, user)| && AllArrive(m, failing) && Part(BackupRows(rows, user), m, [])
  {
    NoneFailed(fetches, |page|, m, failing);
  }

  lemma FailedPage(rows: seq<Row>, user: nat, page: seq<Row>, after: nat, fetches: nat, m: nat, failing: nat -> bool)
    requires Stands(rows, user, page, after, fetches, m, failing) && |page| >= PAGE_SIZE && failing(fetches)
    ensures !AllArrive(|BackupRows(rows, user)|, failing)
  {
    OneFails(fetches, |page|, m, |BackupRows(rows, user)|, failing);
  }

  lemma FirstPage(rows: seq<Row>, user: nat, page: seq<Row>, after: nat, failing: nat -> bool)
    requires UniqueIds(rows) && !failing(0) && page == ExportTransactionsPage(rows, user, 0)
    requires page != [] ==> after == page[|page| - 1].id
    ensures Stands(rows, user, page, after, 1, |page|, failing)
    ensures page == BackupRows(rows, user)[..|page|]
  {
    FirstSlice(rows, user);
    hide BackupRows;
    hide ExportTransactionsPage;
    hide UniqueIds;
    FirstArrives(|page|, failing);
    hide Arrived;
  }

  lemma FirstSlice(rows: seq<Row>, user: nat)
    ensures var all, page := BackupRows(rows, user), ExportTransactionsPage(rows, user, 0);
            && |page| <= |all| && page == all[..|page|] && |page| <= PAGE_SIZE && (|page| < PAGE_SIZE ==> |page| == |all|)
  {
    var all := BackupRows(rows, user);
    BackupQuery(rows, user, 0);
    hide BackupRows;
    hide ExportTransactionsPage;
    hide Query;
    TakeSlice(all, 0, PAGE_SIZE);
    assert all[0..] == all;
  }

  lemma NextPage(rows: seq<Row>, user: nat, page: seq<Row>, after: nat, fetches: nat, m: nat, failing: nat -> bool, next: seq<Row>)
    requires Stands(rows, user, page, after, fetches, m, failing) && |page| >= PAGE_SIZE && !failing(fetches)
    requires next == ExportTransactionsPage(rows, user, after)
    ensures Part(BackupRows(rows, user), m, next)
    ensures next == [] ==> m == |BackupRows(rows, user)| && AllArrive(m, failing)
    ensures next != [] ==> Stands(rows, user, next, next[|next| - 1].id, fetches + 1, m + |next|, failing)
  {
    BackupSlice(rows, user, m);
    assert |next| <= PAGE_SIZE;
    hide BackupRows;
    hide ExportTransactionsPage;
    hide UniqueIds;
    OneMoreArrives(fetches, |page|, m, |next|, failing);
    if next == [] { NoneFailed(fetches + 1, 0, m, failing); }
  }

  /** The `page` and `after` variables the streaming closure works on. Keys and values of the
      other sections are given as their JSON texts. */
  class BackupPages {
    const rows: seq<Row>
    const user: nat
    const failing: nat -> bool   // which fetches fail
    var page: seq<Row>
    var after: nat
    var fetches: nat

    ghost predicate At(m: nat)
      reads this
    {
      Stands(rows, user, page, after, fetches, m, failing)
    }

    constructor (rows: seq<Row>, user: nat, failing: nat -> bool)
      ensures this.rows == rows && this.user == user && this.failing == failing && fetches == 0
    {
      this.rows, this.user, this.failing, page, after, fetches := rows, user, failing, [], 0, 0;
    }

    method Fetch(afterId: nat) returns (ok: bool)
      modifies this`page, this`fetches
      ensures ok == !failing(old(fetches)) && fetches == old(fetches) + 1
      ensures page == if ok then ExportTransactionsPage(rows, user, afterId) else []
    {
      ok := !failing(fetches);
      fetches := fetches + 1;
      page := if ok then ExportTransactionsPage(rows, user, afterId) else [];
    }

    /** The first page, before anything is written. */
    method First() returns (ok: bool, chunk: seq<Row>)
      requires UniqueIds(rows) && fetches == 0
      modifies this
      ensures ok ==> At(|page|) && chunk == page == BackupRows(rows, user)[..|page|]
      ensures ok == !failing(old(fetches)) && fetches == old(fetches) + 1
    {
      hide Stands;
      hide BackupRows;
      hide ExportTransactionsPage;
      hide UniqueIds;
      ok := Fetch(0);
      chunk := page;
      if |page| > 0 {
        after := page[|page| - 1].id;
      }
      if ok { FirstPage(rows, user, page, after, failing); }
    }

    /** The closure passed to `stream`. */
    method Next(ghost m: nat) returns (ok: bool, chunk: seq<Row>)
      requires At(m)
      modifies this
      ensures ok ==> Part(BackupRows(rows, user), m, chunk)
      ensures ok ==> if chunk == [] then m == |BackupRows(rows, user)| else At(m + |chunk|)
      ensures ok && chunk == [] ==> AllArrive(m, failing)
      ensures !ok ==> !AllArrive(|BackupRows(rows, user)|, failing)
    {
      ghost var was, at, past := page, after, fetches;
      hide Stands;
      hide BackupRows;
      hide ExportTransactionsPage;
      hide Part;
      hide AllArrive;
      if |page| < PAGE_SIZE {
        LastPage(rows, user, page, after, fetches, m, failing);
        return true, [];
      }
      ok := Fetch(after);
      if !ok {
        FailedPage(rows, user, was, at, past, m, failing);
        return false, [];
      }
      NextPage(rows, user, was, at, past, m, failing, page);
      if |page| > 0 {
        after := page[|page| - 1].id;
      }
      return true, page;
    }
  }

  lemma BackupSlice(rows: seq<Row>, user: nat, m: nat)
    requires UniqueIds(rows) && 0 < m <= |BackupRows(rows, user)|
    ensures var all := BackupRows(rows, user);
            var page := ExportTransactionsPage(rows, user, all[m - 1].id);
            && Part(all, m, page) && (|page| < PAGE_SIZE ==> m + |page| == |all|)
            && (page != [] ==> page[|page| - 1] == all[m + |page| - 1])
  {
    var all := BackupRows(rows, user);
    TakeSlice(all, m, PAGE_SIZE);
    hide BackupRows;
    hide ExportTransactionsPage;
    hide Take;
    NextBackupPage(rows, user, m);
  }

  class JsonDoc {
    var out: string
    var n: nat
    ghost var members: seq<string>

    ghost predicate Open()
      reads this
    {
      out == "{" + Join(members) && n == |members|
    }

    constructor ()
      ensures Open() && members == []
    {
      out, n, members := "{", 0, [];
    }

    /** `key`: the comma before all members but the first. */
    method Key(k: string)
      requires Open()
      modifies this
      ensures members == old(members) && n == |members| + 1
      ensures forall text :: out + text == "{" + Join(members + [Member(k, text)])
    {
      forall text: string
        ensures Join(members + [Member(k, text)]) == (if members == [] then "" else Join(members) + ",") + k + ":" + text
      {
        JoinSnoc(members, Member(k, text));
        var pre := if members == [] then "" else Join(members) + ",";
        assert pre + Member(k, text) == pre + k + ":" + text;
      }
      if n > 0 {
        out := out + ",";
      }
      n := n + 1;
      out := out + k + ":";
      forall text: string
        ensures out + text == "{" + Join(members + [Member(k, text)])
      {
        var pre := if members == [] then "" else Join(members) + ",";
        assert out + text == "{" + (pre + k + ":" + text);
      }
    }

    method Value(k: string, text: string)
      requires Open()
      modifies this
      ensures Open() && members == old(members) + [Member(k, text)]
    {
      Key(k);
      assert out + text == "{" + Join(members + [Member(k, text)]);
      out := out + text;
      members := members + [Member(k, text)];
    }

    /** `stream`: the array of all rows, comma-joined, though it arrives page by page. */
    method Stream(k: string, first: seq<Row>, pages: BackupPages, enc: Row -> string) returns (ok: bool)
      requires Open() && pages.At(|first|) && first == BackupRows(pages.rows, pages.user)[..|first|]
      modifies this, pages
      ensures ok ==> Open() && members == old(members) + [Member(k, ArrayText(enc, BackupRows(pages.rows, pages.user)))]
      ensures ok <==> AllArrive(|BackupRows(pages.rows, pages.user)|, pages.failing)
    {
      Key(k);
      ghost var start := out;
      ghost var text := ArrayText(enc, BackupRows(pages.rows, pages.user));
      assert start + text == start + "[" + Body(enc, BackupRows(pages.rows, pages.user)) + "]";
      assert start + text == "{" + Join(members + [Member(k, text)]);
      hide Join;
      hide Body;
      hide Member;
      hide BackupRows;
      hide ArrayText;
      out := out + "[";
      ok := Chunks(first, pages, enc);
      if ok {
        out := out + "]";
        members := members + [Member(k, text)];
      }
    }

    /** The loop of `stream`. */
    method Chunks(first: seq<Row>, pages: BackupPages, enc: Row -> string) returns (ok: bool)
      requires pages.At(|first|) && first == BackupRows(pages.rows, pages.user)[..|first|]
      modifies this`out, pages
      ensures ok ==> out == old(out) + Body(enc, BackupRows(pages.rows, pages.user))
      ensures ok <==> AllArrive(|BackupRows(pages.rows, pages.user)|, pages.failing)
    {
      ghost var all := BackupRows(pages.rows, pages.user);
      ghost var begun := out;
      var count: nat := 0;
      var chunk := first;
      ghost var m: nat := 0;
      hide *;
      FirstChunk(pages, first);
      NoneSent(begun, enc, all);
      while |chunk| > 0
        invariant m <= |all| && Part(all, m, chunk)
        invariant if chunk == [] then m == |all| && AllArrive(m, pages.failing) else pages.At(m + |chunk|)
        invariant count == m && out == begun + Body(enc, all[..m])
        decreases |all| - m
      {
        count := Elements(chunk, count, enc, begun, all[..m]);
        PartSent(all, m, chunk);
        m := m + |chunk|;
        ok, chunk := pages.Next(m);
        if !ok {
          return false;
        }
      }
      WholeSent(all, m);
      return true;
    }

    /** The elements of one chunk, after `count` earlier ones. */
    method Elements(chunk: seq<Row>, count: nat, enc: Row -> string, ghost begun: string,
                    ghost sent: seq<Row>) returns (total: nat)
      requires count == |sent| && out == begun + Body(enc, sent)
      modifies this`out
      ensures total == count + |chunk| && out == begun + Body(enc, sent + chunk)
    {
      total := count;
      assert sent + chunk[..0] == sent;
      for i := 0 to |chunk|
        invariant total == count + i && out == begun + Body(enc, sent + chunk[..i])
      {
        var text := enc(chunk[i]);
        ghost var now := sent + chunk[..i];
        assert sent + chunk[..i + 1] == now + [chunk[i]];
        BodySnoc(enc, now, chunk[i]);
        Glue(begun, Body(enc, now), text);
        hide Body;
        if total > 0 {
          out := out + ",";
        }
        total := total + 1;
        out := out + text;
      }
      assert chunk[..|chunk|] == chunk;
    }
  }

  /** `chunk` is what follows the first `m` rows. */
  predicate Part(all: seq<Row>, m: nat, chunk: seq<Row>) {
    m + |chunk| <= |all| && chunk == all[m..m + |chunk|]
  }

  lemma PartSent(all: seq<Row>, m: nat, page: seq<Row>)
    requires Part(all, m, page)
    ensures m + |page| <= |all| && all[..m] + page == all[..m + |page|]
    ensures page != [] ==> page[|page| - 1] == all[m + |page| - 1]
  {
  }

  lemma FirstChunk(pages: BackupPages, first: seq<Row>)
    requires pages.At(|first|) && first == BackupRows(pages.rows, pages.user)[..|first|]
    ensures Part(BackupRows(pages.rows, pages.user), 0, first)
    ensures first == [] ==> |BackupRows(pages.rows, pages.user)| == 0 && AllArrive(0, pages.failing)
  {
    if first == [] { LastPage(pages.rows, pages.user, pages.page, pages.after, pages.fetches, 0, pages.failing); }
    hide BackupRows;
    hide UniqueIds;
  }

  lemma NoneSent(begun: string, enc: Row -> string, all: seq<Row>)
    ensures begun == begun + Body(enc, all[..0])
  {
  }

  lemma NothingSent(all: seq<Row>, header: string, line: Row -> string)
    ensures header == header + Lines(line, all[..0])
  {
  }

  lemma WholeSent(all: seq<Row>, m: nat)
    requires m == |all|
    ensures all[..m] == all
  {
  }

  function Body(enc: Row -> string, rows: seq<Row>): string { Join(Map(enc, rows)) }

  lemma BodySnoc(enc: Row -> string, rows: seq<Row>, x: Row)
    ensures Body(enc, rows + [x]) == if rows == [] then enc(x) else Body(enc, rows) + "," + enc(x)
    ensures Body(enc, []) == ""
  {
    assert Map(enc, rows + [x]) == Map(enc, rows) + [enc(x)];
    JoinSnoc(Map(enc, rows), enc(x));
  }

  lemma Glue(a: string, b: string, c: string)
    ensures a + b + "," + c == a + (b + "," + c)
    ensures a + "" == a
  {
  }

  function ArrayText(enc: Row -> string, rows: seq<Row>): string {
    "[" + Body(enc, rows) + "]"
  }

  // ----- the handlers

  /** Refused: a failure before anything was sent. Aborted: one afterwards, seen by the client
      as a broken download. */
  datatype Download = Refused | Aborted | Complete(text: string)

  /** The backup document: the sections before, the transactions and the sections after. */
  function Document(rows: seq<Row>, user: nat, enc: Row -> string, before: seq<(string, string)>,
                    after: seq<(string, string)>): string {
    var all := Members(before) + [Member("\"transactions\"", ArrayText(enc, BackupRows(rows, user)))] + Members(after);
    "{" + Join(all) + "}\n"
  }

  /** Its text: one object, its members separated by commas, the transactions an array of them. */
  lemma DocumentText(rows: seq<Row>, user: nat, enc: Row -> string, before: seq<(string, string)>, after: seq<(string, string)>)
    ensures var member := (s: (string, string)) => s.0 + ":" + s.1;
            Document(rows, user, enc, before, after) ==
              "{" + Join(Map(member, before) + ["\"transactions\":[" + Join(Map(enc, BackupRows(rows, user))) + "]"] + Map(member, after)) + "}\n"
  {
    hide Join;
    hide BackupRows;
    var member := (s: (string, string)) => s.0 + ":" + s.1;
    assert Members(before) == Map(member, before) && Members(after) == Map(member, after);
    var text := Join(Map(enc, BackupRows(rows, user)));
    assert "\"transactions\"" + ":" + ("[" + text + "]") == "\"transactions\":[" + text + "]";
  }

  /** `MyJSON`, given the sections as key and value texts. */
  method MyJSON(rows: seq<Row>, user: nat, failing: nat -> bool, enc: Row -> string,
                before: seq<(string, string)>, after: seq<(string, string)>) returns (r: Download)
    requires UniqueIds(rows)
    ensures r.Refused? <==> failing(0)
    ensures r.Complete? ==> r.text == Document(rows, user, enc, before, after)
    ensures r.Complete? <==> AllArrive(|BackupRows(rows, user)|, failing)
  {
    hide BackupRows;
    hide Join;
    hide ArrayText;
    hide Member;
    var pages := new BackupPages(rows, user, failing);
    var ok, page := pages.First();
    if !ok {
      return Refused;
    }
    var d := new JsonDoc();
    Sections(d, before);
    ok := d.Stream("\"transactions\"", page, pages, enc);
    if !ok {
      return Aborted;
    }
    Sections(d, after);
    assert d.members == Members(before) + [Member("\"transactions\"", ArrayText(enc, BackupRows(rows, user)))] + Members(after);
    return Complete(d.out + "}\n");
  }

  method Sections(d: JsonDoc, sections: seq<(string, string)>)
    requires d.Open()
    modifies d
    ensures d.Open() && d.members == old(d.members) + Members(sections)
  {
    for i := 0 to |sections|
      invariant d.Open() && d.members == old(d.members) + Members(sections[..i])
    {
      d.Value(sections[i].0, sections[i].1);
      assert Members(sections[..i + 1]) == Members(sections[..i]) + [Member(sections[i].0, sections[i].1)];
    }
    assert sections[..|sections|] == sections;
  }

  lemma {:induction false} LinesAppend(line: Row -> string, a: seq<Row>, x: Row)
    ensures Lines(line, a + [x]) == Lines(line, a) + line(x)
  {
    assert (a + [x])[..|a|] == a;
  }

  /** The lines of one page, after those of `sent`. */
  method WriteLines(out: string, page: seq<Row>, line: Row -> string, ghost header: string,
                    ghost sent: seq<Row>) returns (text: string)
    requires out == header + Lines(line, sent)
    ensures text == header + Lines(line, sent + page)
  {
    text := out;
    assert sent + page[..0] == sent;
    for i := 0 to |page|
      invariant text == header + Lines(line, sent + page[..i])
    {
      assert sent + page[..i + 1] == sent + page[..i] + [page[i]];
      LinesAppend(line, sent + page[..i], page[i]);
      text := text + line(page[i]);
    }
    assert page[..|page|] == page;
  }

  lemma CsvSlice(rows: seq<Row>, user: nat, m: nat)
    requires UniqueIds(rows) && m <= |CsvRows(rows, user)|
    ensures var all := CsvRows(rows, user);
            var page := ExportTransactionsCSVPage(rows, user, if m == 0 then None else Some((all[m - 1].sortAt, all[m - 1].id)));
            Part(all, m, page) && |page| <= PAGE_SIZE && (|page| < PAGE_SIZE || page == [] ==> m + |page| == |all|)
  {
    var all := CsvRows(rows, user);
    TakeSlice(all, m, PAGE_SIZE);
    if m > 0 {
      hide *;
      NextCsvPage(rows, user, m);
    } else {
      assert all[0..] == all;
    }
  }

  /** `TransactionsCSV`: every live transaction of the user once, newest first. */
  method TransactionsCSV(rows: seq<Row>, user: nat, failing: nat -> bool, header: string,
                         line: Row -> string) returns (r: Download)
    requires UniqueIds(rows)
    ensures r.Refused? <==> failing(0)
    ensures r.Complete? ==> r.text == header + Lines(line, CsvRows(rows, user))
    ensures r.Complete? <==> AllArrive(|CsvRows(rows, user)|, failing)
  {
    if failing(0) {
      return Refused;
    }
    var page := ExportTransactionsCSVPage(rows, user, None);
    hide *;
    var text := CsvPages(rows, user, failing, page, header, line);
    return if text.Some? then Complete(text.value) else Aborted;
  }

  /** The loop of `TransactionsCSV` from its first page on; None when a fetch fails. */
  method CsvPages(rows: seq<Row>, user: nat, failing: nat -> bool, first: seq<Row>, header: string,
                  line: Row -> string) returns (text: Option<string>)
    requires UniqueIds(rows) && first == ExportTransactionsCSVPage(rows, user, None) && !failing(0)
    ensures text.Some? ==> text.value == header + Lines(line, CsvRows(rows, user))
    ensures text.Some? <==> AllArrive(|CsvRows(rows, user)|, failing)
  {
    hide CsvRows;
    hide ExportTransactionsCSVPage;
    hide Lines;
    hide Arrived;
    hide AllArrive;
    hide UniqueIds;
    ghost var all := CsvRows(rows, user);
    CsvSlice(rows, user, 0);
    NothingSent(all, header, line);
    var page, out, fetches := first, header, 0;
    FirstArrives(|first|, failing);
    ghost var m: nat := 0;
    while |page| > 0
      invariant m <= |all| && Part(all, m, page)
      invariant |page| < PAGE_SIZE || page == [] ==> m + |page| == |all|
      invariant out == header + Lines(line, all[..m])
      invariant |page| <= PAGE_SIZE && Arrived(fetches + 1, |page|, m + |page|, failing)
      decreases |all| - m
    {
      out := WriteLines(out, page, line, header, all[..m]);
      PartSent(all, m, page);
      m := m + |page|;
      if |page| < PAGE_SIZE {
        NoneFailed(fetches + 1, |page|, m, failing);
        break;
      }
      var last := page[|page| - 1];
      fetches := fetches + 1;
      if failing(fetches) {
        OneFails(fetches, |page|, m, |all|, failing);
        return None;
      }
      ghost var full := |page|;
      CsvSlice(rows, user, m);
      page := ExportTransactionsCSVPage(rows, user, Some((last.sortAt, last.id)));
      OneMoreArrives(fetches, full, m, |page|, failing);
    }
    if page == [] { NoneFailed(fetches + 1, 0, m, failing); }
    WholeSent(all, m);
    return Some(out);
  }
}
