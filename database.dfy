/** `Database`: the clipboard history store. One object owns the connection; each public
    operation changes the `clipboard_items` table in place by one INSERT, DELETE or
    UPDATE, and `get_items` collects the decoded rows of one query in a loop. */
module Store {

  import opened Wrappers
  import opened Ints
  import opened Errors
  import opened ItemTypes
  import opened Rows
  import opened Search
  import opened RowDecode
  import opened Schema

  /** The row cap every successful insert enforces. */
  const SAFETY_LIMIT: u64 := 1000

  const NO_TABLE: string := "no such table: clipboard_items"
  const NO_COLUMN: string := "no such column"

  /** The columns `insert_item` names. */
  const INSERT_COLUMNS: set<string> := CURRENT_COLUMNS - {"id"}

  /** `cleanup_old_items(max_items)` on the table; `max_items as i64` is the LIMIT, and a
      negative LIMIT selects every row, so nothing is deleted. */
  function Cleanup(rows: seq<Row>, maxItems: u64): seq<Row>
  {
    var limit := AsI64(maxItems);
    if limit < 0 then rows else KeepNewest(rows, limit)
  }

  /** Decoding a result set row by row; the first row that fails to decode fails the read. */
  function DecodeAll(rows: seq<Row>): (r: Result<seq<ClipboardItem>, string>)
    ensures r.Ok? <==> forall i :: 0 <= i < |rows| ==> FromRow(rows[i]).Ok?
    ensures r.Ok? ==> |r.value| == |rows| && forall i :: 0 <= i < |rows| ==> FromRow(rows[i]) == Ok(r.value[i])
    ensures r.Err? ==> exists k :: 0 <= k < |rows| && FromRow(rows[k]) == Err(r.error) &&
                                   forall j :: 0 <= j < k ==> FromRow(rows[j]).Ok?
  {
    if rows == [] then Ok([])
    else
      var init := rows[..|rows| - 1];
      assert forall i :: 0 <= i < |init| ==> init[i] == rows[i];
      match DecodeAll(init)
      case Err(e) => Err(e)
      case Ok(items) =>
        match FromRow(rows[|rows| - 1])
        case Err(e) => Err(e)
        case Ok(item) => Ok(items + [item])
  }

  /** Once a prefix of the result set fails to decode, so does the whole. */
  lemma {:induction false} DecodeAllErrExtends(rows: seq<Row>, k: nat)
    requires k <= |rows| && DecodeAll(rows[..k]).Err?
    ensures DecodeAll(rows) == DecodeAll(rows[..k])
    decreases |rows| - k
  {
    if k < |rows| {
      assert rows[..k + 1][..k] == rows[..k];
      DecodeAllErrExtends(rows, k + 1);
    } else {
      assert rows[..k] == rows;
    }
  }

  /** Decoding keeps each row's `created_at`, so a newest-first result set decodes to a
      newest-first page of the same length. */
  lemma DecodedOrder(rows: seq<Row>)
    requires NewestFirst(rows) && DecodeAll(rows).Ok?
    ensures var items := DecodeAll(rows).value;
      && |items| == |rows|
      && forall i, j :: 0 <= i < j < |items| ==> items[i].createdAt >= items[j].createdAt
  {
    var items := DecodeAll(rows).value;
    forall i, j | 0 <= i < j < |items| ensures items[i].createdAt >= items[j].createdAt {
      assert FromRow(rows[i]) == Ok(items[i]) && FromRow(rows[j]) == Ok(items[j]);
    }
  }

  /** The collecting loop of `get_items`: push each decoded row, stopping at the first
      row that fails to decode. */
  method DecodeRows(selected: seq<Row>) returns (r: Result<seq<ClipboardItem>, string>)
    ensures r == DecodeAll(selected)
  {
    var items: seq<ClipboardItem> := [];
    var i := 0;
    while i < |selected|
      invariant 0 <= i <= |selected|
      invariant DecodeAll(selected[..i]) == Ok(items)
    {
      assert selected[..i + 1][..i] == selected[..i];
      match FromRow(selected[i])
      case Err(e) =>
        DecodeAllErrExtends(selected, i + 1);
        return Err(e);
      case Ok(item) =>
        items := items + [item];
      i := i + 1;
    }
    assert selected[..i] == selected;
    return Ok(items);
  }

  /** Appending the encoded item under the next id keeps the table valid, and keeps hashes
      unique when the hash was not stored yet. */
  lemma AppendKeepsValid(t: Table, item: ClipboardItem)
    requires TableValid(t) && INSERT_COLUMNS <= t.columns
    ensures var id := NextId(t.rows, t.sequence);
      TableValid(Table(t.columns, t.rows + [EncodeRow(item, id)], id))
    ensures var id := NextId(t.rows, t.sequence);
      HashesUnique(t.rows) && !HasHash(t.rows, item.contentHash) ==>
        HashesUnique(t.rows + [EncodeRow(item, id)])
  {
    var id := NextId(t.rows, t.sequence);
    var row := EncodeRow(item, id);
    AppendKeepsUnique(t.rows, row, IdOf);
    if HashesUnique(t.rows) && !HasHash(t.rows, item.contentHash) {
      AppendKeepsUnique(t.rows, row, HashOf);
    }
    var added := t.rows + [row];
    forall i | 0 <= i < |added| ensures RowFits(t.columns, added[i]) && added[i].id <= id {
      if i < |t.rows| {
        assert added[i] == t.rows[i];
      }
    }
  }

  class Database {

    var version: int
    var tableExists: bool
    var columns: set<string>
    var rows: seq<Row>
    var sequence: nat

    /** What is on disk. */
    function State(): Disk
      reads this
    {
      Disk(version, if tableExists then Some(Table(columns, rows, sequence)) else None)
    }

    predicate Valid()
      reads this
    {
      DiskValid(State())
    }

    /** `Database::new`: open the file and run `initialize`, which migrates it. */
    constructor Open(disk: Disk)
      requires DiskValid(disk)
      ensures Valid() && State() == Migrate(disk)
      ensures disk.table.Some? && HashesUnique(disk.table.value.rows) ==> HashesUnique(rows)
      ensures disk.table.None? ==> rows == []
    {
      MigrateKeepsValid(disk);
      var m := Migrate(disk);
      version := m.version;
      tableExists := m.table.Some?;
      columns := if m.table.Some? then m.table.value.columns else {};
      rows := if m.table.Some? then m.table.value.rows else [];
      sequence := if m.table.Some? then m.table.value.sequence else 0;
    }

    /** `item_exists`. */
    method ItemExists(hash: string) returns (r: Result<bool, ClipError>)
      ensures tableExists ==> r == Ok(HasHash(rows, hash))
      ensures !tableExists ==> r == Err(Database(NO_TABLE))
    {
      if !tableExists {
        return Err(Database(NO_TABLE));
      }
      var i := 0;
      while i < |rows|
        invariant 0 <= i <= |rows|
        invariant forall j :: 0 <= j < i ==> rows[j].contentHash != hash
      {
        if rows[i].contentHash == hash {
          return Ok(true);
        }
        i := i + 1;
      }
      return Ok(false);
    }

    /** `insert_item`: refuse a hash that is already stored, otherwise append the row under
        a fresh AUTOINCREMENT id and evict down to the newest `SAFETY_LIMIT` rows. */
    method InsertItem(item: ClipboardItem) returns (r: Result<int, ClipError>)
      requires Valid()
      modifies this
      ensures Valid()
      ensures version == old(version) && tableExists == old(tableExists) && columns == old(columns)
      ensures !tableExists ==> r == Err(Database(NO_TABLE)) && rows == old(rows)
      ensures tableExists && HasHash(old(rows), item.contentHash) ==>
                r == Err(Config(DUPLICATE_MESSAGE)) && rows == old(rows) && sequence == old(sequence)
      ensures tableExists && !HasHash(old(rows), item.contentHash) && !(INSERT_COLUMNS <= columns) ==>
                r == Err(Database(NO_COLUMN)) && rows == old(rows) && sequence == old(sequence)
      ensures tableExists && !HasHash(old(rows), item.contentHash) && INSERT_COLUMNS <= columns ==>
                && r == Ok(NextId(old(rows), old(sequence)))
                && sequence == r.value
                && rows == Cleanup(old(rows) + [EncodeRow(item, r.value)], SAFETY_LIMIT)
      ensures r.Ok? ==> r.value >= 1 && r.value > old(sequence) && r.value == sequence
      ensures r.Ok? ==> forall i :: 0 <= i < |old(rows)| ==> old(rows)[i].id < r.value
      ensures r.Ok? ==> |rows| <= SAFETY_LIMIT
      ensures HashesUnique(old(rows)) ==> HashesUnique(rows)
    {
      var found := ItemExists(item.contentHash);
      if !tableExists {
        return Err(found.error);
      }
      if found.Ok? && found.value {
        return Err(Config(DUPLICATE_MESSAGE));
      }
      if !(INSERT_COLUMNS <= columns) {
        return Err(Database(NO_COLUMN));
      }
      var id := NextId(rows, sequence);
      var row := EncodeRow(item, id);
      AppendKeepsValid(Table(columns, rows, sequence), item);
      rows := rows + [row];
      sequence := id;
      var _ := CleanupOldItems(SAFETY_LIMIT);
      return Ok(id);
    }

    /** `get_items`: run the filtered, ordered, windowed query and decode each row. */
    method GetItems(filter: SearchFilter, limit: u64, offset: u64) returns (r: Result<seq<ClipboardItem>, ClipError>)
      ensures !tableExists ==> r == Err(Database(NO_TABLE))
      ensures tableExists && filter.query != [] && "content_text" !in columns ==> r == Err(Database(NO_COLUMN))
      ensures tableExists && (filter.query == [] || "content_text" in columns) ==>
                match DecodeAll(Query(rows, filter, limit, offset))
                case Ok(items) => r == Ok(items)
                case Err(e) => r == Err(Database(e))
      ensures r.Ok? ==> forall i, j :: 0 <= i < j < |r.value| ==> r.value[i].createdAt >= r.value[j].createdAt
      ensures r.Ok? && limit < 0x8000_0000_0000_0000 ==> |r.value| <= limit
    {
      if !tableExists {
        return Err(Database(NO_TABLE));
      }
      if filter.query != [] && "content_text" !in columns {
        return Err(Database(NO_COLUMN));
      }
      var selected := Query(rows, filter, limit, offset);
      var decoded := DecodeRows(selected);
      if decoded.Err? {
        return Err(Database(decoded.error));
      }
      DecodedOrder(selected);
      return Ok(decoded.value);
    }

    /** `delete_item`. */
    method DeleteItem(id: int) returns (r: Result<(), ClipError>)
      requires Valid()
      modifies this
      ensures Valid()
      ensures version == old(version) && tableExists == old(tableExists) && columns == old(columns)
      ensures sequence == old(sequence)
      ensures !tableExists ==> r == Err(Database(NO_TABLE)) && rows == old(rows)
      ensures tableExists ==> r == Ok(()) && rows == DeleteById(old(rows), id)
      ensures HashesUnique(old(rows)) ==> HashesUnique(rows)
    {
      if !tableExists {
        return Err(Database(NO_TABLE));
      }
      var keep := (x: Row) => x.id != id;
      KeepKeepsUnique(rows, keep, IdOf);
      if HashesUnique(rows) {
        KeepKeepsUnique(rows, keep, HashOf);
      }
      rows := DeleteById(rows, id);
      return Ok(());
    }

    /** `clear_all`. The AUTOINCREMENT mark survives, so ids are not reused afterwards. */
    method ClearAll() returns (r: Result<(), ClipError>)
      requires Valid()
      modifies this
      ensures Valid()
      ensures version == old(version) && tableExists == old(tableExists) && columns == old(columns)
      ensures sequence == old(sequence)
      ensures !tableExists ==> r == Err(Database(NO_TABLE)) && rows == old(rows)
      ensures tableExists ==> r == Ok(()) && rows == []
    {
      if !tableExists {
        return Err(Database(NO_TABLE));
      }
      rows := [];
      return Ok(());
    }

    /** `update_access(id)` at the instant `now`. */
    method UpdateAccess(id: int, now: Timestamp) returns (r: Result<(), ClipError>)
      requires Valid()
      modifies this
      ensures Valid()
      ensures version == old(version) && tableExists == old(tableExists) && columns == old(columns)
      ensures sequence == old(sequence)
      ensures !tableExists ==> r == Err(Database(NO_TABLE)) && rows == old(rows)
      ensures tableExists ==> r == Ok(()) && rows == TouchById(old(rows), id, now)
      ensures HashesUnique(old(rows)) ==> HashesUnique(rows)
    {
      if !tableExists {
        return Err(Database(NO_TABLE));
      }
      PointUpdatesKeepKeys(rows, id, now, false);
      rows := TouchById(rows, id, now);
      return Ok(());
    }

    /** `update_favorite(id, is_favorite)`. */
    method UpdateFavorite(id: int, isFavorite: bool) returns (r: Result<(), ClipError>)
      requires Valid()
      modifies this
      ensures Valid()
      ensures version == old(version) && tableExists == old(tableExists) && columns == old(columns)
      ensures sequence == old(sequence)
      ensures !tableExists ==> r == Err(Database(NO_TABLE)) && rows == old(rows)
      ensures tableExists ==> r == Ok(()) && rows == SetFavoriteById(old(rows), id, isFavorite)
      ensures HashesUnique(old(rows)) ==> HashesUnique(rows)
    {
      if !tableExists {
        return Err(Database(NO_TABLE));
      }
      PointUpdatesKeepKeys(rows, id, 0, isFavorite);
      rows := SetFavoriteById(rows, id, isFavorite);
      return Ok(());
    }

    /** `cleanup_old_items(max_items)`: keep the newest `max_items` rows. */
    method CleanupOldItems(maxItems: u64) returns (r: Result<(), ClipError>)
      requires Valid()
      modifies this
      ensures Valid()
      ensures version == old(version) && tableExists == old(tableExists) && columns == old(columns)
      ensures sequence == old(sequence)
      ensures !tableExists ==> r == Err(Database(NO_TABLE)) && rows == old(rows)
      ensures tableExists ==> r == Ok(()) && rows == Cleanup(old(rows), maxItems)
      ensures tableExists && maxItems < 0x8000_0000_0000_0000 ==> |rows| == Min(|old(rows)|, maxItems)
      ensures HashesUnique(old(rows)) ==> HashesUnique(rows)
    {
      if !tableExists {
        return Err(Database(NO_TABLE));
      }
      var limit := AsI64(maxItems);
      if limit >= 0 {
        KeepNewestSpec(rows, limit);
        var ids := NewestIds(rows, limit);
        var keep := (x: Row) => x.id in ids;
        DeleteKeepsValid(Table(columns, rows, sequence), keep);
        if HashesUnique(rows) {
          KeepKeepsUnique(rows, keep, HashOf);
        }
      }
      rows := Cleanup(rows, maxItems);
      return Ok(());
    }

    /** `cleanup_with_limit`: the same as `cleanup_old_items`. */
    method CleanupWithLimit(maxItems: u64) returns (r: Result<(), ClipError>)
      requires Valid()
      modifies this
      ensures Valid()
      ensures version == old(version) && tableExists == old(tableExists) && columns == old(columns)
      ensures sequence == old(sequence)
      ensures !tableExists ==> r == Err(Database(NO_TABLE)) && rows == old(rows)
      ensures tableExists ==> r == Ok(()) && rows == Cleanup(old(rows), maxItems)
      ensures HashesUnique(old(rows)) ==> HashesUnique(rows)
    {
      r := CleanupOldItems(maxItems);
    }

    /** `get_item_count`. */
    method GetItemCount() returns (r: Result<nat, ClipError>)
      ensures !tableExists ==> r == Err(Database(NO_TABLE))
      ensures tableExists ==> r == Ok(|rows|)
    {
      if !tableExists {
        return Err(Database(NO_TABLE));
      }
      return Ok(|rows|);
    }
  }
}
