/** The on-disk state the store opens, and `initialize`/`migrate`: a version-0 database
    either gets the current table created, or has its legacy table upgraded in place by
    adding columns and copying the old `content` column into `content_text`. */
module Schema {

  import opened Wrappers
  import opened Rows
  import opened RowDecode

  /** Columns every version of the table has. */
  const BASE_COLUMNS: set<string> :=
    {"id", "content_type", "content_hash", "content_size", "created_at", "accessed_at",
     "access_count", "is_favorite"}

  /** Columns the version-1 schema introduced. */
  const ADDED_COLUMNS: set<string> :=
    {"content_text", "content_data", "image_width", "image_height", "image_format"}

  /** The single text column of the legacy schema. */
  const LEGACY_CONTENT: string := "content"

  const CURRENT_COLUMNS: set<string> := BASE_COLUMNS + ADDED_COLUMNS

  /** A row a table with these columns can hold: a column it lacks reads as NULL. */
  predicate RowFits(columns: set<string>, r: Row)
  {
    && ("content_text" !in columns ==> r.contentText.None?)
    && ("content_data" !in columns ==> r.contentData.None?)
    && ("image_width" !in columns ==> r.imageWidth.None?)
    && ("image_height" !in columns ==> r.imageHeight.None?)
    && ("image_format" !in columns ==> r.imageFormat.None?)
    && (LEGACY_CONTENT !in columns ==> r.content.None?)
  }

  /** The `clipboard_items` table; `sequence` is the AUTOINCREMENT high-water mark. */
  datatype Table = Table(columns: set<string>, rows: seq<Row>, sequence: nat)

  /** `version` is `MAX(version)` of `schema_version`, 0 when it is empty or unreadable. */
  datatype Disk = Disk(version: int, table: Option<Table>)

  predicate TableValid(t: Table)
  {
    && BASE_COLUMNS <= t.columns
    && IdsUnique(t.rows) && IdsAtMost(t.rows, t.sequence)
    && forall i :: 0 <= i < |t.rows| ==> RowFits(t.columns, t.rows[i])
  }

  predicate DiskValid(d: Disk)
  {
    d.table.Some? ==> TableValid(d.table.value)
  }

  /** Deleting rows keeps a table valid. */
  lemma DeleteKeepsValid(t: Table, keep: Row -> bool)
    requires TableValid(t)
    ensures TableValid(t.(rows := Keep(t.rows, keep)))
  {
    var kept := Keep(t.rows, keep);
    KeepKeepsUnique(t.rows, keep, IdOf);
    forall i | 0 <= i < |kept| ensures RowFits(t.columns, kept[i]) && kept[i].id <= t.sequence {
      assert kept[i] in t.rows;
    }
  }

  /** `UPDATE clipboard_items SET content_text = content WHERE content_text IS NULL` on one row. */
  function Backfill(r: Row): (b: Row)
    ensures b == r.(contentText := b.contentText)
    ensures b.contentText == if r.contentText.Some? then r.contentText else r.content
  {
    if r.contentText.None? then r.(contentText := r.content) else r
  }

  function BackfillAll(rows: seq<Row>): (b: seq<Row>)
    ensures |b| == |rows| && forall i :: 0 <= i < |rows| ==> b[i] == Backfill(rows[i])
  {
    seq(|rows|, i requires 0 <= i < |rows| => Backfill(rows[i]))
  }

  /** The effect of `migrate(current_version)` on the database. The five ALTER TABLE
      statements ignore their errors, so a column that is already there is kept as is. */
  function Migrate(d: Disk): (m: Disk)
    ensures d.version != 0 ==> m == d
    ensures d.version == 0 ==> m.version == 1 && m.table.Some?
    ensures d.version == 0 && d.table.None? ==> m.table == Some(Table(CURRENT_COLUMNS, [], 0))
    ensures d.version == 0 && d.table.Some? && LEGACY_CONTENT in d.table.value.columns ==>
              var t := d.table.value;
              m.table == Some(Table(t.columns + ADDED_COLUMNS, BackfillAll(t.rows), t.sequence))
    ensures d.version == 0 && d.table.Some? && LEGACY_CONTENT !in d.table.value.columns ==>
              m.table == d.table
  {
    if d.version != 0 then d
    else
      match d.table
      case None => Disk(1, Some(Table(CURRENT_COLUMNS, [], 0)))
      case Some(t) =>
        if LEGACY_CONTENT in t.columns then
          Disk(1, Some(Table(t.columns + ADDED_COLUMNS, BackfillAll(t.rows), t.sequence)))
        else Disk(1, Some(t))
  }

  /** Migration never drops a column, a row or a row's data: every row keeps its id, hash
      and every other column, and `content_text` changes only from NULL to the legacy text. */
  lemma MigrateKeepsData(d: Disk)
    requires d.table.Some? && DiskValid(d)
    ensures var m := Migrate(d);
      var before, after := d.table.value, m.table.value;
      && m.table.Some? && before.columns <= after.columns && before.sequence == after.sequence
      && |after.rows| == |before.rows|
      && forall i :: 0 <= i < |before.rows| ==>
           && after.rows[i] == before.rows[i].(contentText := after.rows[i].contentText)
           && (before.rows[i].contentText.Some? ==> after.rows[i].contentText == before.rows[i].contentText)
           && (d.version == 0 && before.rows[i].contentText.None? ==>
                 after.rows[i].contentText == before.rows[i].content)
  {
    var t := d.table.value;
    if d.version == 0 && LEGACY_CONTENT !in t.columns {
      assert forall i :: 0 <= i < |t.rows| ==> RowFits(t.columns, t.rows[i]);
    }
  }

  /** Migration keeps the table's invariants, and with them the dedup invariant. */
  lemma MigrateKeepsValid(d: Disk)
    requires DiskValid(d)
    ensures DiskValid(Migrate(d))
    ensures d.table.Some? && HashesUnique(d.table.value.rows) ==> HashesUnique(Migrate(d).table.value.rows)
  {
    if d.version == 0 && d.table.Some? && LEGACY_CONTENT in d.table.value.columns {
      var t := d.table.value;
      var rows := BackfillAll(t.rows);
      assert forall i :: 0 <= i < |rows| ==> rows[i].id == t.rows[i].id && rows[i].contentHash == t.rows[i].contentHash;
    }
  }

  /** Migrating twice is migrating once. */
  lemma MigrateIdempotent(d: Disk)
    ensures Migrate(Migrate(d)) == Migrate(d)
  {
  }

  /** The backfill does not change what a row decodes to: reading a legacy row before and
      after the upgrade gives the same item. */
  lemma BackfillDecodesAlike(r: Row)
    ensures FromRow(Backfill(r)) == FromRow(r)
  {
    assert RowText(Backfill(r)) == RowText(r);
    assert DecodeContent(Backfill(r)) == DecodeContent(r);
  }
}
