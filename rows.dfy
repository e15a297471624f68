/** The `clipboard_items` table as a sequence of rows in rowid order, and the pure
    effect of each statement the store runs on it: the INSERT of `insert_item`, the
    DELETE and UPDATE statements of the point updates, and the recency DELETE of
    `cleanup_old_items`. */
module Rows {

  import opened Wrappers
  import opened Ints
  import opened ItemTypes

  /** One row. Every later-schema column that a row may lack is an `Option` (SQL NULL);
      `content` is the single text column of the legacy schema. */
  datatype Row = Row(
    id: int,
    contentType: string,
    contentText: Option<string>,
    contentData: Option<seq<byte>>,
    contentHash: string,
    contentSize: int,
    createdAt: Timestamp,
    accessedAt: Timestamp,
    accessCount: int,
    isFavorite: bool,
    imageWidth: Option<int>,
    imageHeight: Option<int>,
    imageFormat: Option<string>,
    content: Option<string>)

  function IdOf(r: Row): int { r.id }

  function HashOf(r: Row): string { r.contentHash }

  /** No two rows agree on `key`. */
  predicate UniqueBy<K(==)>(rows: seq<Row>, key: Row -> K)
  {
    forall i, j :: 0 <= i < j < |rows| ==> key(rows[i]) != key(rows[j])
  }

  /** The dedup invariant: one row per distinct `content_hash`. */
  predicate HashesUnique(rows: seq<Row>)
  {
    UniqueBy(rows, HashOf)
  }

  predicate IdsUnique(rows: seq<Row>)
  {
    UniqueBy(rows, IdOf)
  }

  /** `item_exists`: some row carries this hash. */
  predicate HasHash(rows: seq<Row>, hash: string)
  {
    exists i :: 0 <= i < |rows| && rows[i].contentHash == hash
  }

  predicate HasId(rows: seq<Row>, id: int)
  {
    exists i :: 0 <= i < |rows| && rows[i].id == id
  }

  predicate IdsAtMost(rows: seq<Row>, bound: int)
  {
    forall i :: 0 <= i < |rows| ==> rows[i].id <= bound
  }

  function MaxId(rows: seq<Row>): (m: int)
    ensures IdsAtMost(rows, m)
    ensures rows != [] ==> HasId(rows, m)
  {
    if rows == [] then 0
    else
      var rest := MaxId(rows[1..]);
      if rows[1..] == [] || rows[0].id >= rest then rows[0].id else rest
  }

  /** The rowid AUTOINCREMENT picks: one more than the largest rowid the table has ever
      held, which is the larger of the recorded high-water mark and the current rows. */
  function NextId(rows: seq<Row>, sequence: nat): (id: int)
    ensures id >= 1 && id > sequence
    ensures forall i :: 0 <= i < |rows| ==> rows[i].id < id
  {
    (if rows == [] || sequence >= MaxId(rows) then sequence else MaxId(rows)) + 1
  }

  /** A row whose key differs from every key already present can be appended. */
  lemma AppendKeepsUnique<K>(rows: seq<Row>, x: Row, key: Row -> K)
    requires UniqueBy(rows, key)
    requires forall i :: 0 <= i < |rows| ==> key(rows[i]) != key(x)
    ensures UniqueBy(rows + [x], key)
  {
  }

  /** The tags `insert_item` writes into `content_type` (and `get_items` compares with). */
  function TypeTag(t: ContentType): string
  {
    match t
    case Text => "text"
    case Image => "image"
  }

  /** The tags `insert_item` writes into `image_format`. */
  function FormatTag(f: ImageFormat): string
  {
    match f
    case Png => "png"
    case Jpeg => "jpeg"
    case Gif => "gif"
    case Bmp => "bmp"
  }

  /** The column values `insert_item` binds for `item` under the id the table assigns.
      The type tag is taken from the payload; the legacy `content` column is not written. */
  function EncodeRow(item: ClipboardItem, id: int): (r: Row)
    ensures r.id == id && r.contentHash == item.contentHash && r.contentSize == item.contentSize
    ensures r.createdAt == item.createdAt && r.accessedAt == item.accessedAt
    ensures r.accessCount == item.accessCount && r.isFavorite == item.isFavorite && r.content == None
    ensures item.content.TextPayload? ==>
              && r.contentType == "text" && r.contentText == Some(item.content.text)
              && r.contentData == None && r.imageWidth == None && r.imageHeight == None && r.imageFormat == None
    ensures item.content.ImagePayload? ==>
              var d := item.content.image;
              && r.contentType == "image" && r.contentText == None
              && r.contentData == Some(d.data) && r.imageWidth == Some(d.width as int)
              && r.imageHeight == Some(d.height as int) && r.imageFormat == Some(FormatTag(d.format))
  {
    match item.content
    case TextPayload(text) =>
      Row(id, TypeTag(Text), Some(text), None, item.contentHash, item.contentSize,
          item.createdAt, item.accessedAt, item.accessCount, item.isFavorite, None, None, None, None)
    case ImagePayload(d) =>
      Row(id, TypeTag(Image), None, Some(d.data), item.contentHash, item.contentSize,
          item.createdAt, item.accessedAt, item.accessCount, item.isFavorite,
          Some(d.width as int), Some(d.height as int), Some(FormatTag(d.format)), None)
  }

  // ----- filtering (the WHERE clause of a DELETE) -----

  /** The rows satisfying `keep`, in table order. */
  function Keep(rows: seq<Row>, keep: Row -> bool): (r: seq<Row>)
    ensures |r| <= |rows|
    ensures forall x :: x in r <==> x in rows && keep(x)
  {
    if rows == [] then []
    else (if keep(rows[0]) then [rows[0]] else []) + Keep(rows[1..], keep)
  }

  lemma {:induction false} KeepMultiset(rows: seq<Row>, keep: Row -> bool, x: Row)
    ensures multiset(Keep(rows, keep))[x] == if keep(x) then multiset(rows)[x] else 0
  {
    if rows != [] {
      KeepMultiset(rows[1..], keep, x);
      assert rows == [rows[0]] + rows[1..];
    }
  }

  /** Deleting rows never breaks a uniqueness constraint. */
  lemma {:induction false} KeepKeepsUnique<K>(rows: seq<Row>, keep: Row -> bool, key: Row -> K)
    requires UniqueBy(rows, key)
    ensures UniqueBy(Keep(rows, keep), key)
  {
    if rows != [] {
      var rest := Keep(rows[1..], keep);
      KeepKeepsUnique(rows[1..], keep, key);
      if keep(rows[0]) {
        forall j | 0 <= j < |rest| ensures key(rows[0]) != key(rest[j]) {
          assert rest[j] in rows[1..];
          var k :| 0 <= k < |rows[1..]| && rows[1..][k] == rest[j];
          assert rows[k + 1] == rest[j];
        }
      }
    }
  }

  /** `DELETE FROM clipboard_items WHERE id = ?`. */
  function DeleteById(rows: seq<Row>, id: int): (r: seq<Row>)
    ensures forall x :: x in r <==> x in rows && x.id != id
    ensures !HasId(rows, id) ==> r == rows
  {
    if !HasId(rows, id) then
      KeepAll(rows, (x: Row) => x.id != id);
      rows
    else Keep(rows, (x: Row) => x.id != id)
  }

  lemma {:induction false} KeepAll(rows: seq<Row>, keep: Row -> bool)
    requires forall i :: 0 <= i < |rows| ==> keep(rows[i])
    ensures Keep(rows, keep) == rows
  {
    if rows != [] {
      KeepAll(rows[1..], keep);
    }
  }

  // ----- point updates (UPDATE ... WHERE id = ?) -----

  /** `UPDATE clipboard_items SET accessed_at = ?, access_count = access_count + 1 WHERE id = ?`. */
  function TouchById(rows: seq<Row>, id: int, now: Timestamp): (r: seq<Row>)
    ensures |r| == |rows|
    ensures forall i :: 0 <= i < |rows| && rows[i].id != id ==> r[i] == rows[i]
    ensures forall i :: 0 <= i < |rows| && rows[i].id == id ==>
              r[i] == rows[i].(accessedAt := now, accessCount := rows[i].accessCount + 1)
  {
    seq(|rows|, i requires 0 <= i < |rows| =>
      if rows[i].id == id then rows[i].(accessedAt := now, accessCount := rows[i].accessCount + 1) else rows[i])
  }

  /** `UPDATE clipboard_items SET is_favorite = ? WHERE id = ?`. */
  function SetFavoriteById(rows: seq<Row>, id: int, flag: bool): (r: seq<Row>)
    ensures |r| == |rows|
    ensures forall i :: 0 <= i < |rows| && rows[i].id != id ==> r[i] == rows[i]
    ensures forall i :: 0 <= i < |rows| && rows[i].id == id ==> r[i] == rows[i].(isFavorite := flag)
  {
    seq(|rows|, i requires 0 <= i < |rows| => if rows[i].id == id then rows[i].(isFavorite := flag) else rows[i])
  }

  /** An update that changes neither ids nor hashes keeps both uniqueness constraints; for
      an id no row has it changes nothing at all. */
  lemma PointUpdatesKeepKeys(rows: seq<Row>, id: int, now: Timestamp, flag: bool)
    ensures var t, f := TouchById(rows, id, now), SetFavoriteById(rows, id, flag);
      && (forall i :: 0 <= i < |rows| ==> t[i].id == rows[i].id && t[i].contentHash == rows[i].contentHash)
      && (forall i :: 0 <= i < |rows| ==> f[i].id == rows[i].id && f[i].contentHash == rows[i].contentHash)
      && (HashesUnique(rows) ==> HashesUnique(t) && HashesUnique(f))
      && (IdsUnique(rows) ==> IdsUnique(t) && IdsUnique(f))
      && (!HasId(rows, id) ==> t == rows && f == rows)
  {
    var t, f := TouchById(rows, id, now), SetFavoriteById(rows, id, flag);
    if !HasId(rows, id) {
      assert forall i :: 0 <= i < |rows| ==> t[i] == rows[i];
      assert forall i :: 0 <= i < |rows| ==> f[i] == rows[i];
    }
  }

  // ----- ORDER BY created_at DESC -----

  predicate NewestFirst(s: seq<Row>)
  {
    forall i, j :: 0 <= i < j < |s| ==> s[i].createdAt >= s[j].createdAt
  }

  function InsertNewest(x: Row, s: seq<Row>): (r: seq<Row>)
    ensures multiset(r) == multiset(s) + multiset{x}
  {
    if s == [] || x.createdAt >= s[0].createdAt then [x] + s
    else
      assert s == [s[0]] + s[1..];
      [s[0]] + InsertNewest(x, s[1..])
  }

  lemma {:induction false} InsertNewestSorted(x: Row, s: seq<Row>)
    requires NewestFirst(s)
    ensures NewestFirst(InsertNewest(x, s))
  {
    if s != [] && x.createdAt < s[0].createdAt {
      var rest := InsertNewest(x, s[1..]);
      InsertNewestSorted(x, s[1..]);
      forall j | 0 <= j < |rest| ensures s[0].createdAt >= rest[j].createdAt {
        assert rest[j] in multiset(rest);
        if rest[j] != x {
          var k :| 0 <= k < |s[1..]| && s[1..][k] == rest[j];
          assert s[k + 1] == rest[j];
        }
      }
    }
  }

  /** A stable insertion sort by `created_at`, newest first. SQLite leaves the order of
      rows with equal `created_at` unspecified; this model keeps them in table order. */
  function SortNewestFirst(rows: seq<Row>): (r: seq<Row>)
    ensures multiset(r) == multiset(rows) && |r| == |rows|
    ensures NewestFirst(r)
  {
    if rows == [] then []
    else
      assert rows == [rows[0]] + rows[1..];
      var rest := SortNewestFirst(rows[1..]);
      InsertNewestSorted(rows[0], rest);
      InsertNewest(rows[0], rest)
  }

  lemma {:induction false} InsertNewestKeepsUnique<K>(x: Row, s: seq<Row>, key: Row -> K)
    requires UniqueBy(s, key)
    requires forall i :: 0 <= i < |s| ==> key(s[i]) != key(x)
    ensures UniqueBy(InsertNewest(x, s), key)
  {
    if s != [] && x.createdAt < s[0].createdAt {
      var rest := InsertNewest(x, s[1..]);
      InsertNewestKeepsUnique(x, s[1..], key);
      forall j | 0 <= j < |rest| ensures key(s[0]) != key(rest[j]) {
        assert rest[j] in multiset(rest);
        if rest[j] != x {
          var k :| 0 <= k < |s[1..]| && s[1..][k] == rest[j];
          assert s[k + 1] == rest[j];
        }
      }
    }
  }

  lemma {:induction false} SortKeepsUnique<K>(rows: seq<Row>, key: Row -> K)
    requires UniqueBy(rows, key)
    ensures UniqueBy(SortNewestFirst(rows), key)
  {
    if rows != [] {
      var rest := SortNewestFirst(rows[1..]);
      SortKeepsUnique(rows[1..], key);
      forall i | 0 <= i < |rest| ensures key(rest[i]) != key(rows[0]) {
        assert rest[i] in multiset(rows[1..]);
        var k :| 0 <= k < |rows[1..]| && rows[1..][k] == rest[i];
        assert rows[k + 1] == rest[i];
      }
      InsertNewestKeepsUnique(rows[0], rest, key);
    }
  }

  // ----- cleanup_old_items -----

  function Min(a: int, b: int): int { if a <= b then a else b }

  /** The ids of the `k` most recently created rows (the sub-select of `cleanup_old_items`). */
  function NewestIds(rows: seq<Row>, k: nat): set<int>
  {
    var sorted := SortNewestFirst(rows);
    set i | 0 <= i < Min(k, |sorted|) :: sorted[i].id
  }

  /** `DELETE FROM clipboard_items WHERE id NOT IN (SELECT id ... ORDER BY created_at DESC LIMIT k)`. */
  function KeepNewest(rows: seq<Row>, k: nat): seq<Row>
  {
    var ids := NewestIds(rows, k);
    Keep(rows, (x: Row) => x.id in ids)
  }

  /** In a table with unique ids, a row of `sorted` lies in its first `m` rows exactly
      when its id is one of theirs. */
  lemma TopByIds(sorted: seq<Row>, m: nat, ids: set<int>)
    requires IdsUnique(sorted) && m <= |sorted|
    requires ids == set i | 0 <= i < m :: sorted[i].id
    ensures forall x :: x in sorted[..m] ==> x.id in ids
    ensures forall x :: x in sorted[m..] ==> x.id !in ids
  {
    forall x | x in sorted[..m] ensures x.id in ids {
      var c :| 0 <= c < m && sorted[..m][c] == x;
      assert sorted[c].id in ids;
    }
    forall x | x in sorted[m..] ensures x.id !in ids {
      var c :| 0 <= c < |sorted| - m && sorted[m..][c] == x;
      assert sorted[m + c] == x;
    }
  }

  /** The rows the eviction keeps are, as a multiset, the first `k` of the sorted table. */
  lemma KeptAreTop(rows: seq<Row>, k: nat)
    requires IdsUnique(rows)
    ensures var sorted := SortNewestFirst(rows);
      multiset(KeepNewest(rows, k)) == multiset(sorted[..Min(k, |sorted|)])
  {
    KeptCounts(rows, k);
  }

  lemma KeptCounts(rows: seq<Row>, k: nat)
    requires IdsUnique(rows)
    ensures var sorted := SortNewestFirst(rows);
      forall x :: multiset(KeepNewest(rows, k))[x] == multiset(sorted[..Min(k, |sorted|)])[x]
  {
    forall x ensures multiset(KeepNewest(rows, k))[x]
                     == multiset(SortNewestFirst(rows)[..Min(k, |SortNewestFirst(rows)|)])[x] {
      KeptCountAt(rows, k, x);
    }
  }

  /** One row's multiplicity in the eviction's result. */
  lemma KeptCountAt(rows: seq<Row>, k: nat, x: Row)
    requires IdsUnique(rows)
    ensures var sorted := SortNewestFirst(rows);
      multiset(KeepNewest(rows, k))[x] == multiset(sorted[..Min(k, |sorted|)])[x]
  {
    var sorted := SortNewestFirst(rows);
    var m := Min(k, |sorted|);
    var ids := NewestIds(rows, k);
    var keep := (y: Row) => y.id in ids;
    SortKeepsUnique(rows, IdOf);
    TopByIds(sorted, m, ids);
    SplitCount(sorted, m, x);
    KeepMultiset(rows, keep, x);
  }

  /** In a duplicate-free sequence a row lies on at most one side of a split point. */
  lemma SplitCount(s: seq<Row>, m: nat, x: Row)
    requires IdsUnique(s) && m <= |s|
    ensures multiset(s)[x] == multiset(s[..m])[x] + multiset(s[m..])[x]
    ensures x in s[..m] ==> x !in s[m..]
  {
    assert s == s[..m] + s[m..];
  }

  /** A kept row is at least as new as any removed one. */
  lemma KeptNotOlder(rows: seq<Row>, k: nat, x: Row, y: Row)
    requires IdsUnique(rows)
    requires x in KeepNewest(rows, k) && y in rows && y !in KeepNewest(rows, k)
    ensures x.createdAt >= y.createdAt
  {
    var sorted := SortNewestFirst(rows);
    var m := Min(k, |sorted|);
    var ids := NewestIds(rows, k);
    SortKeepsUnique(rows, IdOf);
    TopByIds(sorted, m, ids);
    assert x.id in ids && y.id !in ids;
    assert x in multiset(sorted) && y in multiset(sorted);
    var a :| 0 <= a < |sorted| && sorted[a] == x;
    var b :| 0 <= b < |sorted| && sorted[b] == y;
  }

  /** The recency eviction keeps exactly min(n, k) rows, all of them from the table, and
      none of the rows it removed is newer than a row it kept. */
  lemma KeepNewestSpec(rows: seq<Row>, k: nat)
    requires IdsUnique(rows)
    ensures var kept := KeepNewest(rows, k);
      && |kept| == Min(|rows|, k)
      && (forall x :: x in kept ==> x in rows)
      && (forall x, y :: x in kept && y in rows && y !in kept ==> x.createdAt >= y.createdAt)
  {
    var sorted := SortNewestFirst(rows);
    var top := sorted[..Min(k, |sorted|)];
    var kept := KeepNewest(rows, k);
    KeptAreTop(rows, k);
    assert |kept| == |multiset(kept)| == |multiset(top)| == |top|;
    forall x, y | x in kept && y in rows && y !in kept ensures x.createdAt >= y.createdAt {
      KeptNotOlder(rows, k, x, y);
    }
  }
}
