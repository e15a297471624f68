/** The two built-in text tables. Each is written as the sequence of its `insert` calls,
    in the order the program makes them; the table is the map those inserts build. */
module Texts {

  import opened Locale
  import Errors

  /** The `insert` calls that build a table, in order. */
  type Inserts = seq<(TextKey, string)>

  /** The map a sequence of inserts builds into an empty map; a later insert of a key
      overwrites an earlier one. */
  function Build(ins: Inserts): map<TextKey, string>
  {
    if ins == [] then map[] else Build(ins[..|ins| - 1])[ins[|ins| - 1].0 := ins[|ins| - 1].1]
  }

  /** The table-building loop: successive inserts into a fresh map. */
  method BuildTable(ins: Inserts) returns (texts: map<TextKey, string>)
    ensures texts == Build(ins)
  {
    texts := map[];
    var i := 0;
    while i < |ins|
      invariant 0 <= i <= |ins|
      invariant texts == Build(ins[..i])
    {
      assert ins[..i + 1][..i] == ins[..i];
      texts := texts[ins[i].0 := ins[i].1];
      i := i + 1;
    }
    assert ins[..i] == ins;
  }

  /** No key is inserted twice. */
  predicate Distinct(ins: Inserts)
  {
    forall i, j :: 0 <= i < j < |ins| ==> ins[i].0 != ins[j].0
  }

  /** The keys a sequence of inserts builds are exactly the keys it inserts. */
  lemma {:induction false} BuildKeys(ins: Inserts, k: TextKey)
    ensures k in Build(ins) <==> exists i :: 0 <= i < |ins| && ins[i].0 == k
  {
    if ins != [] {
      var p := ins[..|ins| - 1];
      BuildKeys(p, k);
      if k in Build(p) {
        var i :| 0 <= i < |p| && p[i].0 == k;
        assert ins[i].0 == k;
      }
    }
  }

  /** A key inserted once maps to the text it was inserted with. */
  lemma {:induction false} BuildLookup(ins: Inserts, i: nat)
    requires i < |ins|
    requires forall j :: i < j < |ins| ==> ins[j].0 != ins[i].0
    ensures ins[i].0 in Build(ins) && Build(ins)[ins[i].0] == ins[i].1
  {
    if i < |ins| - 1 {
      BuildLookup(ins[..|ins| - 1], i);
    }
  }

  /** With no key inserted twice, the table has one entry per insert. */
  lemma {:induction false} BuildSize(ins: Inserts)
    requires Distinct(ins)
    ensures |Build(ins)| == |ins|
  {
    if ins != [] {
      var p := ins[..|ins| - 1];
      assert Distinct(p);
      BuildSize(p);
      BuildKeys(p, ins[|ins| - 1].0);
    }
  }

  /** `get_english_texts`. */
  const ENGLISH_INSERTS: seq<(TextKey, string)> := [
    (AppTitle, "ClipManager"),
    (AppVersion, "ClipManager v0.1.0"),
    (SearchPlaceholder, "Search:"),
    (TypeFilterAll, "All"),
    (TypeFilterText, "Text"),
    (TypeFilterImage, "Image"),
    (ClearAll, "Clear All"),
    (Settings, "Settings"),
    (NoRecords, "No clipboard history records"),
    (RecordsCount, "records"),
    (CharactersCount, "characters"),
    (UsedTimes, "times used"),
    (Copy, "Copy"),
    (Delete, "Delete"),
    (LoadDataFailed, "Failed to load data: {}"),
    (CopyFailed, "Failed to copy: {}"),
    (DeleteFailed, "Failed to delete: {}"),
    (ClearFailed, "Failed to clear: {}"),
    (UpdateAccessFailed, "Failed to update access record: {}"),
    (ContentExists, "Content already exists"),
    (DatabaseError, "Database error: {}"),
    (ClipboardError, "Clipboard operation error: {}"),
    (IoError, "IO error: {}"),
    (SerializationError, "Serialization error: {}"),
    (ConfigError, "Configuration error: {}"),
    (ContentTooLarge, "Content too large: {} bytes, maximum allowed {} bytes"),
    (UnsupportedContentType, "Unsupported content type"),
    (TimeFormat, "%H:%M:%S"),
    (ContextCopy, "Copy"),
    (ContextDelete, "Delete"),
    (Favorite, "Favorite"),
    (Unfavorite, "Unfavorite")
  ]
  /** `get_chinese_texts`. */
  const CHINESE_INSERTS: seq<(TextKey, string)> := [
    (AppTitle, "剪切板管理器"),
    (AppVersion, "ClipManager v0.1.0"),
    (SearchPlaceholder, "搜索:"),
    (TypeFilterAll, "全部"),
    (TypeFilterText, "文本"),
    (TypeFilterImage, "图片"),
    (ClearAll, "清空全部"),
    (Settings, "设置"),
    (NoRecords, "暂无剪切板历史记录"),
    (RecordsCount, "条记录"),
    (CharactersCount, "字符"),
    (UsedTimes, "次使用"),
    (Copy, "复制"),
    (Delete, "删除"),
    (Favorite, "收藏"),
    (Unfavorite, "取消收藏"),
    (LoadDataFailed, "加载数据失败: {}"),
    (CopyFailed, "复制失败: {}"),
    (DeleteFailed, "删除失败: {}"),
    (ClearFailed, "清空失败: {}"),
    (UpdateAccessFailed, "更新访问记录失败: {}"),
    (ContentExists, "内容已存在"),
    (DatabaseError, "数据库错误: {}"),
    (ClipboardError, "剪切板操作错误: {}"),
    (IoError, "IO 错误: {}"),
    (SerializationError, "序列化错误: {}"),
    (ConfigError, "配置错误: {}"),
    (ContentTooLarge, "内容过大: {} 字节，最大允许 {} 字节"),
    (UnsupportedContentType, "不支持的内容类型"),
    (TimeFormat, "%H:%M:%S"),
    (ContextCopy, "复制"),
    (ContextDelete, "删除")
  ]
  function EnglishTexts(): map<TextKey, string>
  {
    Build(ENGLISH_INSERTS)
  }

  function ChineseTexts(): map<TextKey, string>
  {
    Build(CHINESE_INSERTS)
  }

  /** The placeholder `text` returns for a key the current table lacks. */
  const MISSING_TEXT: string := "[MISSING TEXT]"

  /** Where `k` is inserted into the english table. */
  function EnglishSlot(k: TextKey): (i: nat)
    ensures i < |ENGLISH_INSERTS| && ENGLISH_INSERTS[i].0 == k
  {
    match k
    case AppTitle => 0
    case AppVersion => 1
    case SearchPlaceholder => 2
    case TypeFilterAll => 3
    case TypeFilterText => 4
    case TypeFilterImage => 5
    case ClearAll => 6
    case Settings => 7
    case NoRecords => 8
    case RecordsCount => 9
    case CharactersCount => 10
    case UsedTimes => 11
    case Copy => 12
    case Delete => 13
    case LoadDataFailed => 14
    case CopyFailed => 15
    case DeleteFailed => 16
    case ClearFailed => 17
    case UpdateAccessFailed => 18
    case ContentExists => 19
    case DatabaseError => 20
    case ClipboardError => 21
    case IoError => 22
    case SerializationError => 23
    case ConfigError => 24
    case ContentTooLarge => 25
    case UnsupportedContentType => 26
    case TimeFormat => 27
    case ContextCopy => 28
    case ContextDelete => 29
    case Favorite => 30
    case Unfavorite => 31
  }
  /** Where `k` is inserted into the chinese table. */
  function ChineseSlot(k: TextKey): (i: nat)
    ensures i < |CHINESE_INSERTS| && CHINESE_INSERTS[i].0 == k
  {
    match k
    case AppTitle => 0
    case AppVersion => 1
    case SearchPlaceholder => 2
    case TypeFilterAll => 3
    case TypeFilterText => 4
    case TypeFilterImage => 5
    case ClearAll => 6
    case Settings => 7
    case NoRecords => 8
    case RecordsCount => 9
    case CharactersCount => 10
    case UsedTimes => 11
    case Copy => 12
    case Delete => 13
    case Favorite => 14
    case Unfavorite => 15
    case LoadDataFailed => 16
    case CopyFailed => 17
    case DeleteFailed => 18
    case ClearFailed => 19
    case UpdateAccessFailed => 20
    case ContentExists => 21
    case DatabaseError => 22
    case ClipboardError => 23
    case IoError => 24
    case SerializationError => 25
    case ConfigError => 26
    case ContentTooLarge => 27
    case UnsupportedContentType => 28
    case TimeFormat => 29
    case ContextCopy => 30
    case ContextDelete => 31
  }

  lemma EnglishSlotsPart1(i: nat)
    requires i < 4
    ensures EnglishSlot(ENGLISH_INSERTS[i].0) == i
  {
    if i == 0 {} else if i == 1 {} else if i == 2 {} else {}
  }

  lemma EnglishSlotsPart2(i: nat)
    requires 4 <= i < 8
    ensures EnglishSlot(ENGLISH_INSERTS[i].0) == i
  {
    if i == 4 {} else if i == 5 {} else if i == 6 {} else {}
  }

  lemma EnglishSlotsPart3(i: nat)
    requires 8 <= i < 12
    ensures EnglishSlot(ENGLISH_INSERTS[i].0) == i
  {
    if i == 8 {} else if i == 9 {} else if i == 10 {} else {}
  }

  lemma EnglishSlotsPart4(i: nat)
    requires 12 <= i < 16
    ensures EnglishSlot(ENGLISH_INSERTS[i].0) == i
  {
    if i == 12 {} else if i == 13 {} else if i == 14 {} else {}
  }

  lemma EnglishSlotsPart5(i: nat)
    requires 16 <= i < 20
    ensures EnglishSlot(ENGLISH_INSERTS[i].0) == i
  {
    if i == 16 {} else if i == 17 {} else if i == 18 {} else {}
  }

  lemma EnglishSlotsPart6(i: nat)
    requires 20 <= i < 24
    ensures EnglishSlot(ENGLISH_INSERTS[i].0) == i
  {
    if i == 20 {} else if i == 21 {} else if i == 22 {} else {}
  }

  lemma EnglishSlotsPart7(i: nat)
    requires 24 <= i < 28
    ensures EnglishSlot(ENGLISH_INSERTS[i].0) == i
  {
    if i == 24 {} else if i == 25 {} else if i == 26 {} else {}
  }

  lemma EnglishSlotsPart8(i: nat)
    requires 28 <= i < 32
    ensures EnglishSlot(ENGLISH_INSERTS[i].0) == i
  {
    if i == 28 {} else if i == 29 {} else if i == 30 {} else {}
  }

  /** Each insert's key is inserted at that position and nowhere else. */
  lemma EnglishSlotInverse(i: nat)
    requires i < |ENGLISH_INSERTS|
    ensures EnglishSlot(ENGLISH_INSERTS[i].0) == i
  {
    if i < 4 { EnglishSlotsPart1(i); }
    else if i < 8 { EnglishSlotsPart2(i); }
    else if i < 12 { EnglishSlotsPart3(i); }
    else if i < 16 { EnglishSlotsPart4(i); }
    else if i < 20 { EnglishSlotsPart5(i); }
    else if i < 24 { EnglishSlotsPart6(i); }
    else if i < 28 { EnglishSlotsPart7(i); }
    else { EnglishSlotsPart8(i); }
  }

  lemma EnglishNotMissing(i: nat)
    requires i < |ENGLISH_INSERTS|
    ensures ENGLISH_INSERTS[i].1 != MISSING_TEXT
  {
    if i < 4 {} else if i < 8 {} else if i < 12 {} else if i < 16 {}
    else if i < 20 {} else if i < 24 {} else if i < 28 {} else {}
  }

  /** The English table is built from 32 inserts of 32 different keys. */
  lemma EnglishDistinct()
    ensures Distinct(ENGLISH_INSERTS) && |EnglishTexts()| == 32
  {
    forall i, j | 0 <= i < j < |ENGLISH_INSERTS|
      ensures ENGLISH_INSERTS[i].0 != ENGLISH_INSERTS[j].0
    {
      EnglishSlotInverse(i);
      EnglishSlotInverse(j);
    }
    BuildSize(ENGLISH_INSERTS);
  }

  /** Every key has an entry in the English table, and none is the missing-text placeholder. */
  lemma EnglishComplete(k: TextKey)
    ensures k in EnglishTexts() && EnglishTexts()[k] == ENGLISH_INSERTS[EnglishSlot(k)].1
    ensures EnglishTexts()[k] != MISSING_TEXT
  {
    forall j | EnglishSlot(k) < j < |ENGLISH_INSERTS|
      ensures ENGLISH_INSERTS[j].0 != k
    {
      EnglishSlotInverse(j);
    }
    BuildLookup(ENGLISH_INSERTS, EnglishSlot(k));
    EnglishNotMissing(EnglishSlot(k));
  }

  lemma ChineseSlotsPart1(i: nat)
    requires i < 4
    ensures ChineseSlot(CHINESE_INSERTS[i].0) == i
  {
    if i == 0 {} else if i == 1 {} else if i == 2 {} else {}
  }

  lemma ChineseSlotsPart2(i: nat)
    requires 4 <= i < 8
    ensures ChineseSlot(CHINESE_INSERTS[i].0) == i
  {
    if i == 4 {} else if i == 5 {} else if i == 6 {} else {}
  }

  lemma ChineseSlotsPart3(i: nat)
    requires 8 <= i < 12
    ensures ChineseSlot(CHINESE_INSERTS[i].0) == i
  {
    if i == 8 {} else if i == 9 {} else if i == 10 {} else {}
  }

  lemma ChineseSlotsPart4(i: nat)
    requires 12 <= i < 16
    ensures ChineseSlot(CHINESE_INSERTS[i].0) == i
  {
    if i == 12 {} else if i == 13 {} else if i == 14 {} else {}
  }

  lemma ChineseSlotsPart5(i: nat)
    requires 16 <= i < 20
    ensures ChineseSlot(CHINESE_INSERTS[i].0) == i
  {
    if i == 16 {} else if i == 17 {} else if i == 18 {} else {}
  }

  lemma ChineseSlotsPart6(i: nat)
    requires 20 <= i < 24
    ensures ChineseSlot(CHINESE_INSERTS[i].0) == i
  {
    if i == 20 {} else if i == 21 {} else if i == 22 {} else {}
  }

  lemma ChineseSlotsPart7(i: nat)
    requires 24 <= i < 28
    ensures ChineseSlot(CHINESE_INSERTS[i].0) == i
  {
    if i == 24 {} else if i == 25 {} else if i == 26 {} else {}
  }

  lemma ChineseSlotsPart8(i: nat)
    requires 28 <= i < 32
    ensures ChineseSlot(CHINESE_INSERTS[i].0) == i
  {
    if i == 28 {} else if i == 29 {} else if i == 30 {} else {}
  }

  /** Each insert's key is inserted at that position and nowhere else. */
  lemma ChineseSlotInverse(i: nat)
    requires i < |CHINESE_INSERTS|
    ensures ChineseSlot(CHINESE_INSERTS[i].0) == i
  {
    if i < 4 { ChineseSlotsPart1(i); }
    else if i < 8 { ChineseSlotsPart2(i); }
    else if i < 12 { ChineseSlotsPart3(i); }
    else if i < 16 { ChineseSlotsPart4(i); }
    else if i < 20 { ChineseSlotsPart5(i); }
    else if i < 24 { ChineseSlotsPart6(i); }
    else if i < 28 { ChineseSlotsPart7(i); }
    else { ChineseSlotsPart8(i); }
  }

  lemma ChineseNotMissing(i: nat)
    requires i < |CHINESE_INSERTS|
    ensures CHINESE_INSERTS[i].1 != MISSING_TEXT
  {
    if i < 4 {} else if i < 8 {} else if i < 12 {} else if i < 16 {}
    else if i < 20 {} else if i < 24 {} else if i < 28 {} else {}
  }

  /** The Chinese table is built from 32 inserts of 32 different keys. */
  lemma ChineseDistinct()
    ensures Distinct(CHINESE_INSERTS) && |ChineseTexts()| == 32
  {
    forall i, j | 0 <= i < j < |CHINESE_INSERTS|
      ensures CHINESE_INSERTS[i].0 != CHINESE_INSERTS[j].0
    {
      ChineseSlotInverse(i);
      ChineseSlotInverse(j);
    }
    BuildSize(CHINESE_INSERTS);
  }

  /** Every key has an entry in the Chinese table, and none is the missing-text placeholder. */
  lemma ChineseComplete(k: TextKey)
    ensures k in ChineseTexts() && ChineseTexts()[k] == CHINESE_INSERTS[ChineseSlot(k)].1
    ensures ChineseTexts()[k] != MISSING_TEXT
  {
    forall j | ChineseSlot(k) < j < |CHINESE_INSERTS|
      ensures CHINESE_INSERTS[j].0 != k
    {
      ChineseSlotInverse(j);
    }
    BuildLookup(CHINESE_INSERTS, ChineseSlot(k));
    ChineseNotMissing(ChineseSlot(k));
  }

  /** The version banner and the time format are the same in both languages, and the
      English duplicate message is the one the store reports. */
  lemma SharedTexts()
    ensures AppVersion in EnglishTexts() && TimeFormat in EnglishTexts() && ContentExists in EnglishTexts()
    ensures AppVersion in ChineseTexts() && TimeFormat in ChineseTexts()
    ensures EnglishTexts()[AppVersion] == ChineseTexts()[AppVersion] == "ClipManager v0.1.0"
    ensures EnglishTexts()[TimeFormat] == ChineseTexts()[TimeFormat] == "%H:%M:%S"
    ensures EnglishTexts()[ContentExists] == Errors.DUPLICATE_MESSAGE
  {
    SharedVersion();
    SharedTimeFormat();
    EnglishComplete(ContentExists);
  }

  lemma SharedVersion()
    ensures AppVersion in EnglishTexts() && AppVersion in ChineseTexts()
    ensures EnglishTexts()[AppVersion] == ChineseTexts()[AppVersion] == "ClipManager v0.1.0"
  {
    EnglishComplete(AppVersion);
    ChineseComplete(AppVersion);
  }

  lemma SharedTimeFormat()
    ensures TimeFormat in EnglishTexts() && TimeFormat in ChineseTexts()
    ensures EnglishTexts()[TimeFormat] == ChineseTexts()[TimeFormat] == "%H:%M:%S"
  {
    EnglishComplete(TimeFormat);
    ChineseComplete(TimeFormat);
  }
}
