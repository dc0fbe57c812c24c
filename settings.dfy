/**
 * System settings: the typed parse/format pair that converts between a
 * setting's stored text and its value, and the three handlers that move
 * many settings at once — export (encrypted values masked), category
 * update (all or nothing) and import (best effort, always committed).
 *
 * The settings table is a value: category, then key, then the stored row.
 * A stored text of an encrypted setting stands for the plaintext the
 * ciphertext encrypts; the cipher itself is not part of this model.
 */
module Settings {
  import opened Wrappers
  import opened JsValues

  /** The data types whose parse branch this model covers; `number`, `json` and `array` need `Number` and `JSON.parse`. */
  predicate Modelled(dataType: string)
  {
    dataType != "number" && dataType != "json" && dataType != "array"
  }

  /** The data types whose format branch this model covers: only `json` and `array` need `JSON.stringify`. */
  predicate Formattable(dataType: string)
  {
    dataType != "json" && dataType != "array"
  }

  /** `parseSettingValue`: a falsy value reads as null; booleans from "true"/true; other types as they are. */
  function ParseSettingValue(value: Value, dataType: string): (r: Value)
    requires Modelled(dataType)
    ensures !Truthy(value) ==> r == Null
    ensures Truthy(value) && dataType == "boolean" ==> r.Bool? && (r.b <==> value == Str("true") || value == Bool(true))
    ensures Truthy(value) && dataType != "boolean" ==> r == value
  {
    if !Truthy(value) then Null
    else if dataType == "boolean" then Bool(value == Str("true") || value == Bool(true))
    else value
  }

  /** `formatSettingValue`: the text stored for a value. */
  function FormatSettingValue(value: Value, dataType: string): (text: string)
    requires Formattable(dataType)
    ensures dataType == "boolean" ==> text == "true" || text == "false"
    ensures dataType == "boolean" ==> (text == "true" <==> Truthy(value))
    ensures dataType != "boolean" ==> text == ToText(value)
  {
    if dataType == "boolean" then (if Truthy(value) then "true" else "false")
    else ToText(value)
  }

  /** A boolean stored as its text reads back as the same boolean. */
  lemma BooleanRoundTrip(b: bool)
    ensures ParseSettingValue(Str(FormatSettingValue(Bool(b), "boolean")), "boolean") == Bool(b)
  {
  }

  /** The two texts a boolean setting is stored as survive a parse and a format. */
  lemma BooleanTextRoundTrip(text: string)
    requires text == "true" || text == "false"
    ensures FormatSettingValue(ParseSettingValue(Str(text), "boolean"), "boolean") == text
  {
  }

  /** Read and written back, a boolean setting's stored text becomes "true" exactly when it was "true", and "false" otherwise. */
  lemma BooleanTextNormalised(text: string)
    ensures FormatSettingValue(ParseSettingValue(Str(text), "boolean"), "boolean") == if text == "true" then "true" else "false"
  {
  }

  /** A non-empty string of a text type round-trips; the empty string comes back as null. */
  lemma TextRoundTrip(s: string, dataType: string)
    requires Modelled(dataType) && dataType != "boolean"
    ensures s != "" ==> ParseSettingValue(Str(FormatSettingValue(Str(s), dataType)), dataType) == Str(s)
    ensures s == "" ==> ParseSettingValue(Str(FormatSettingValue(Str(s), dataType)), dataType) == Null
  {
  }

  /**
   * A stored setting row: `value` is the setting's text (`None` for SQL
   * NULL), `encrypted` the row's flag, and `sealed` whether the column
   * holds that text encrypted rather than in the clear.
   */
  datatype Stored = Stored(value: Option<string>, dataType: string, encrypted: bool, sealed: bool)

  type Category = map<string, Stored>

  /** The settings table: category, then setting key. */
  type Table = map<string, Category>

  predicate CategoryModelled(existing: Category)
  {
    forall k | k in existing :: Modelled(existing[k].dataType)
  }

  predicate TableModelled(table: Table)
  {
    forall c | c in table :: CategoryModelled(table[c])
  }

  function CategoryOf(table: Table, category: string): Category
  {
    if category in table then table[category] else map[]
  }

  /** A stored text as a JavaScript value: NULL reads as `null`. */
  function StoredValue(v: Option<string>): Value
  {
    if v.Some? then Str(v.value) else Null
  }

  // ---------------------------------------------------------------- export

  const EncryptedPlaceholder := "[ENCRYPTED - NOT EXPORTED]"

  /** A row of the export query. */
  datatype Row = Row(category: string, key: string, value: Option<string>, dataType: string, description: Value, encrypted: bool)

  /** An entry of the export file: `{value, data_type, description}`. */
  datatype Exported = Exported(value: Value, dataType: string, description: Value)

  datatype ExportData = ExportData(exportedAt: string, exportedBy: Value, version: string, settings: map<string, map<string, Exported>>)

  predicate RowsModelled(rows: seq<Row>)
  {
    forall i | 0 <= i < |rows| :: Modelled(rows[i].dataType)
  }

  /** What one row contributes: the masked placeholder for an encrypted setting, the parsed value otherwise. */
  function ExportEntry(row: Row): (e: Exported)
    requires Modelled(row.dataType)
    ensures row.encrypted ==> e.value == Str(EncryptedPlaceholder)
    ensures !row.encrypted ==> e.value == ParseSettingValue(StoredValue(row.value), row.dataType)
    ensures e.dataType == row.dataType && e.description == row.description
  {
    Exported(if row.encrypted then Str(EncryptedPlaceholder) else ParseSettingValue(StoredValue(row.value), row.dataType),
             row.dataType, row.description)
  }

  /** The settings part of the export, grouped by category, as the loop builds it row by row. */
  function ExportOf(rows: seq<Row>): map<string, map<string, Exported>>
    requires RowsModelled(rows)
  {
    if rows == [] then map[]
    else
      var m := ExportOf(rows[..|rows| - 1]);
      var row := rows[|rows| - 1];
      var group := if row.category in m then m[row.category] else map[];
      m[row.category := group[row.key := ExportEntry(row)]]
  }

  /** No two rows share a category and key, as in the settings table. */
  predicate UniqueRows(rows: seq<Row>)
  {
    forall i, j | 0 <= i < j < |rows| :: (rows[i].category, rows[i].key) != (rows[j].category, rows[j].key)
  }

  /** Some row has this category and key. */
  predicate HasRow(rows: seq<Row>, c: string, k: string)
  {
    exists i :: 0 <= i < |rows| && rows[i].category == c && rows[i].key == k
  }

  /** The export has an entry for exactly the (category, key) pairs of the rows. */
  lemma {:induction false} ExportCovers(rows: seq<Row>)
    requires RowsModelled(rows)
    ensures forall c, k :: (c in ExportOf(rows) && k in ExportOf(rows)[c]) <==> HasRow(rows, c, k)
  {
    if rows != [] {
      var init := rows[..|rows| - 1];
      ExportCovers(init);
      var m := ExportOf(init);
      var last := rows[|rows| - 1];
      forall c, k
        ensures (c in ExportOf(rows) && k in ExportOf(rows)[c]) <==> HasRow(rows, c, k)
      {
        assert (c in ExportOf(rows) && k in ExportOf(rows)[c])
          <==> (c in m && k in m[c]) || (c == last.category && k == last.key);
        if HasRow(init, c, k) {
          var i :| 0 <= i < |init| && init[i].category == c && init[i].key == k;
          assert rows[i] == init[i];
        }
        if c == last.category && k == last.key {
          assert rows[|rows| - 1] == last;
        }
        if HasRow(rows, c, k) {
          var i :| 0 <= i < |rows| && rows[i].category == c && rows[i].key == k;
          if i < |init| {
            assert init[i] == rows[i];
          }
        }
      }
    }
  }

  /** With unique rows every row's entry is its own export entry. */
  lemma {:induction false} ExportEntries(rows: seq<Row>)
    requires RowsModelled(rows) && UniqueRows(rows)
    ensures forall i | 0 <= i < |rows| ::
      rows[i].category in ExportOf(rows) && rows[i].key in ExportOf(rows)[rows[i].category]
      && ExportOf(rows)[rows[i].category][rows[i].key] == ExportEntry(rows[i])
  {
    if rows != [] {
      var init := rows[..|rows| - 1];
      assert UniqueRows(init);
      ExportEntries(init);
      forall i | 0 <= i < |init|
        ensures (rows[i].category, rows[i].key) != (rows[|rows| - 1].category, rows[|rows| - 1].key)
      {
      }
    }
  }

  /** An encrypted setting is never exported with its stored value, only with the placeholder. */
  lemma ExportMasksEncrypted(rows: seq<Row>, i: nat)
    requires RowsModelled(rows) && UniqueRows(rows) && i < |rows| && rows[i].encrypted
    ensures rows[i].category in ExportOf(rows) && rows[i].key in ExportOf(rows)[rows[i].category]
      && ExportOf(rows)[rows[i].category][rows[i].key].value == Str(EncryptedPlaceholder)
  {
    ExportEntries(rows);
  }

  /** `GET /export`: walks the rows, grouping them by category. */
  method Export(rows: seq<Row>, exportedAt: string, username: Value, email: Value) returns (data: ExportData)
    requires RowsModelled(rows)
    ensures data.settings == ExportOf(rows)
    ensures data.exportedBy == (if Truthy(username) then username else email) && data.version == "1.0"
  {
    var settings: map<string, map<string, Exported>> := map[];
    for i := 0 to |rows|
      invariant settings == ExportOf(rows[..i])
    {
      var row := rows[i];
      if row.category !in settings {
        settings := settings[row.category := map[]];
      }
      var value := if row.encrypted then Str(EncryptedPlaceholder) else ParseSettingValue(StoredValue(row.value), row.dataType);
      settings := settings[row.category := settings[row.category][row.key := Exported(value, row.dataType, row.description)]];
      assert rows[..i + 1][..i] == rows[..i];
    }
    assert rows[..|rows|] == rows;
    data := ExportData(exportedAt, if Truthy(username) then username else email, "1.0", settings);
  }

  // ------------------------------------------------------- category update

  datatype UpdateError = NotInCategory(key: string, category: string)

  /** The errors a batch of updates raises: one per key the category lacks, in order. */
  function MissingKeys(existing: Category, category: string, updates: seq<(string, Value)>): seq<UpdateError>
  {
    if updates == [] then []
    else
      var errors := MissingKeys(existing, category, updates[..|updates| - 1]);
      var key := updates[|updates| - 1].0;
      if key in existing then errors else errors + [NotInCategory(key, category)]
  }

  /** The category's rows after the batch is written, each updated key holding its formatted value. */
  function Written(existing: Category, updates: seq<(string, Value)>): Category
    requires CategoryModelled(existing)
  {
    if updates == [] then existing
    else
      var rows := Written(existing, updates[..|updates| - 1]);
      var (key, value) := updates[|updates| - 1];
      if key in existing then rows[key := Rewritten(existing[key], value)]
      else rows
  }

  /** A row after an update: the formatted value, encrypted when the setting is. */
  function Rewritten(row: Stored, value: Value): (r: Stored)
    requires Modelled(row.dataType)
    ensures r.value == Some(FormatSettingValue(value, row.dataType))
    ensures r.sealed == row.encrypted
    ensures r.dataType == row.dataType && r.encrypted == row.encrypted
  {
    row.(value := Some(FormatSettingValue(value, row.dataType)), sealed := row.encrypted)
  }

  /** The values the response reports: each written key with its text parsed back. */
  function UpdatedSettings(existing: Category, updates: seq<(string, Value)>): map<string, Value>
    requires CategoryModelled(existing)
  {
    if updates == [] then map[]
    else
      var m := UpdatedSettings(existing, updates[..|updates| - 1]);
      var (key, value) := updates[|updates| - 1];
      if key in existing then
        var dataType := existing[key].dataType;
        m[key := ParseSettingValue(Str(FormatSettingValue(value, dataType)), dataType)]
      else m
  }

  /** The batch raises an error exactly when one of its keys is not in the category, and each error names such a key. */
  lemma {:induction false} MissingKeysExact(existing: Category, category: string, updates: seq<(string, Value)>)
    ensures MissingKeys(existing, category, updates) == [] <==> forall i | 0 <= i < |updates| :: updates[i].0 in existing
    ensures forall e | e in MissingKeys(existing, category, updates) :: e.category == category && e.key !in existing
  {
    if updates != [] {
      var init := updates[..|updates| - 1];
      MissingKeysExact(existing, category, init);
      assert forall i | 0 <= i < |init| :: init[i] == updates[i];
    }
  }

  /** No two updates name the same key, as in a JSON object. */
  predicate UniqueKeys(entries: seq<(string, Value)>)
  {
    forall i, j | 0 <= i < j < |entries| :: entries[i].0 != entries[j].0
  }

  /**
   * Writing a batch keeps the category's keys and types, stores the
   * formatted value of every updated key and leaves the other rows alone.
   */
  lemma {:induction false} WrittenEffect(existing: Category, updates: seq<(string, Value)>)
    requires CategoryModelled(existing) && UniqueKeys(updates)
    ensures Written(existing, updates).Keys == existing.Keys
    ensures forall i | 0 <= i < |updates| && updates[i].0 in existing ::
      Written(existing, updates)[updates[i].0] == Rewritten(existing[updates[i].0], updates[i].1)
    ensures forall k | k in existing && (forall i | 0 <= i < |updates| :: updates[i].0 != k) ::
      Written(existing, updates)[k] == existing[k]
  {
    if updates != [] {
      var last := |updates| - 1;
      var init := updates[..last];
      assert UniqueKeys(init);
      WrittenEffect(existing, init);
      var (key, value) := updates[last];
      var rows := Written(existing, init);
      assert Written(existing, updates) == if key in existing then rows[key := Rewritten(existing[key], value)] else rows;
      forall i | 0 <= i < |updates| && updates[i].0 in existing
        ensures Written(existing, updates)[updates[i].0] == Rewritten(existing[updates[i].0], updates[i].1)
      {
        if i < last {
          assert init[i] == updates[i] && updates[i].0 != key;
        }
      }
      forall k | k in existing && (forall i | 0 <= i < |updates| :: updates[i].0 != k)
        ensures Written(existing, updates)[k] == existing[k]
      {
        assert updates[last].0 != k;
        assert forall i | 0 <= i < |init| :: init[i].0 != k by {
          forall i | 0 <= i < |init| ensures init[i].0 != k {
            assert init[i] == updates[i];
          }
        }
      }
    }
  }

  /** Commits a category's new rows. */
  function Commit(table: Table, category: string, rows: Category): Table
  {
    if category in table then table[category := rows] else table
  }

  /**
   * `PUT /:category`: writes each update to its row inside one
   * transaction; a single unknown key rolls the whole batch back.
   */
  method UpdateCategory(table: Table, category: string, updates: seq<(string, Value)>)
    returns (newTable: Table, result: Result<map<string, Value>, seq<UpdateError>>)
    requires CategoryModelled(CategoryOf(table, category))
    ensures MissingKeys(CategoryOf(table, category), category, updates) != [] ==>
      newTable == table && result == Failure(MissingKeys(CategoryOf(table, category), category, updates))
    ensures MissingKeys(CategoryOf(table, category), category, updates) == [] ==>
      newTable == Commit(table, category, Written(CategoryOf(table, category), updates))
      && result == Success(UpdatedSettings(CategoryOf(table, category), updates))
  {
    var existing := CategoryOf(table, category);
    var rows := existing;
    var updated: map<string, Value> := map[];
    var errors: seq<UpdateError> := [];
    for i := 0 to |updates|
      invariant rows == Written(existing, updates[..i])
      invariant updated == UpdatedSettings(existing, updates[..i])
      invariant errors == MissingKeys(existing, category, updates[..i])
    {
      var (key, value) := updates[i];
      assert updates[..i + 1][..i] == updates[..i];
      if key !in existing {
        errors := errors + [NotInCategory(key, category)];
      } else {
        var formatted := FormatSettingValue(value, existing[key].dataType);
        rows := rows[key := existing[key].(value := Some(formatted), sealed := existing[key].encrypted)];
        updated := updated[key := ParseSettingValue(Str(formatted), existing[key].dataType)];
      }
    }
    assert updates[..|updates|] == updates;
    if |errors| > 0 {
      return table, Failure(errors);
    }
    newTable := Commit(table, category, rows);
    result := Success(updated);
  }

  /** A batch naming any key the category lacks changes nothing, whatever else it holds. */
  lemma UpdateRollsBack(existing: Category, category: string, updates: seq<(string, Value)>, i: nat)
    requires i < |updates| && updates[i].0 !in existing
    ensures MissingKeys(existing, category, updates) != []
  {
    MissingKeysExact(existing, category, updates);
  }

  // ---------------------------------------------------------------- import

  datatype ImportIssue =
    | Missing(category: string, key: string)
    | Unreadable(category: string, key: string)
    | UnreadableCategory(category: string)

  datatype ImportState = ImportState(table: Table, results: map<string, map<string, Value>>, warnings: seq<ImportIssue>, total: nat)

  datatype ImportError = InvalidFormat

  datatype ImportOutcome = ImportOutcome(results: map<string, map<string, Value>>, warnings: seq<ImportIssue>, totalUpdated: nat)

  /** `settingData.value`; `None` when reading it throws, as it does on `null` and `undefined`. */
  function ValueField(settingData: Value): Option<Value>
  {
    match settingData
    case Undefined => None
    case Null => None
    case Obj(props) => Some(Prop(props, "value"))
    case _ => Some(Undefined)
  }

  /**
   * The value an import entry supplies: the entry's `value` when it has
   * one (the export file's format), the entry itself otherwise (a bare
   * value).  This is the evidently intended reading of the import's
   * "support both formats".
   */
  function ImportedValue(settingData: Value): Value
  {
    if settingData.Obj? && "value" in settingData.props then settingData.props["value"] else settingData
  }

  /** `settingData.value || settingData`, the import's code as written: a falsy `value` falls back to the whole entry. */
  function ImportedValueAsWritten(settingData: Value): Value
    requires ValueField(settingData).Some?
  {
    var field := ValueField(settingData).value;
    if Truthy(field) then field else settingData
  }

  /** An entry the import writes: a known key, a readable entry and no placeholder. */
  predicate Writes(existing: Category, key: string, settingData: Value)
  {
    key in existing && ValueField(settingData).Some? && ValueField(settingData).value != Str(EncryptedPlaceholder)
  }

  /**
   * A row after the import writes an entry: the formatted text of
   * `settingData.value || settingData`, stored in the clear even for an
   * encrypted setting.
   */
  function Imported(row: Stored, settingData: Value): (r: Stored)
    requires Modelled(row.dataType) && ValueField(settingData).Some?
    ensures r.value == Some(FormatSettingValue(ImportedValueAsWritten(settingData), row.dataType))
    ensures !r.sealed
    ensures r.dataType == row.dataType && r.encrypted == row.encrypted
  {
    row.(value := Some(FormatSettingValue(ImportedValueAsWritten(settingData), row.dataType)), sealed := false)
  }

  /** One setting of the import. */
  function ImportSetting(st: ImportState, category: string, existing: Category, key: string, settingData: Value): ImportState
    requires CategoryModelled(existing)
  {
    if key !in existing then st.(warnings := st.warnings + [Missing(category, key)])
    else if ValueField(settingData).None? then st.(warnings := st.warnings + [Unreadable(category, key)])
    else if ValueField(settingData).value == Str(EncryptedPlaceholder) then st
    else
      var dataType := existing[key].dataType;
      var formatted := FormatSettingValue(ImportedValueAsWritten(settingData), dataType);
      var rows := CategoryOf(st.table, category)[key := Imported(existing[key], settingData)];
      var results := CategoryResults(st.results, category)[key := ParseSettingValue(Str(formatted), dataType)];
      ImportState(st.table[category := rows], st.results[category := results], st.warnings, st.total + 1)
  }

  function CategoryResults(results: map<string, map<string, Value>>, category: string): map<string, Value>
  {
    if category in results then results[category] else map[]
  }

  /** The settings of one category, in order, against the rows the category held when its turn came. */
  function ImportEntries(st: ImportState, category: string, existing: Category, entries: seq<(string, Value)>): ImportState
    requires CategoryModelled(existing)
  {
    if entries == [] then st
    else
      var before := ImportEntries(st, category, existing, entries[..|entries| - 1]);
      var (key, settingData) := entries[|entries| - 1];
      ImportSetting(before, category, existing, key, settingData)
  }

  /**
   * `after` differs from `before` only inside `category`, whose rows keep
   * the keys, types and encryption flags of `existing`.
   */
  predicate KeepsShape(before: Table, after: Table, category: string, existing: Category)
  {
    after.Keys == before.Keys
    && (forall c | c in before && c != category :: after[c] == before[c])
    && CategoryOf(after, category).Keys == existing.Keys
    && (forall k | k in existing :: CategoryOf(after, category)[k].dataType == existing[k].dataType)
    && (forall k | k in existing :: CategoryOf(after, category)[k].encrypted == existing[k].encrypted)
  }

  lemma ImportSettingKeepsShape(origin: Table, st: ImportState, category: string, existing: Category, key: string, settingData: Value)
    requires CategoryModelled(existing) && KeepsShape(origin, st.table, category, existing)
    requires existing == CategoryOf(origin, category)
    ensures KeepsShape(origin, ImportSetting(st, category, existing, key, settingData).table, category, existing)
  {
    if Writes(existing, key, settingData) {
      var row := Imported(existing[key], settingData);
      var rows := CategoryOf(st.table, category)[key := row];
      assert ImportSetting(st, category, existing, key, settingData).table == st.table[category := rows];
      assert category in st.table;
      assert rows.Keys == existing.Keys;
      forall k | k in existing
        ensures rows[k].dataType == existing[k].dataType && rows[k].encrypted == existing[k].encrypted
      {
        if k != key {
          assert rows[k] == CategoryOf(st.table, category)[k];
        }
      }
    }
  }

  /** Importing never changes which keys a category has or their types. */
  lemma {:induction false} ImportEntriesKeepsShape(st: ImportState, category: string, existing: Category, entries: seq<(string, Value)>)
    requires CategoryModelled(existing) && existing == CategoryOf(st.table, category)
    ensures KeepsShape(st.table, ImportEntries(st, category, existing, entries).table, category, existing)
  {
    if entries == [] {
      assert CategoryOf(st.table, category) == existing;
    } else {
      var init := entries[..|entries| - 1];
      ImportEntriesKeepsShape(st, category, existing, init);
      var (key, settingData) := entries[|entries| - 1];
      ImportSettingKeepsShape(st.table, ImportEntries(st, category, existing, init), category, existing, key, settingData);
    }
  }

  /**
   * One category of the import file: its entries, or `None` for a `null` or
   * `undefined` value, on which `Object.entries` throws.
   */
  type CategoryData = Option<seq<(string, Value)>>

  /**
   * All categories, in order; each starts with an empty result set and reads
   * its rows afresh.  A category whose entries cannot be read keeps that
   * empty result set and adds a warning; the import goes on.
   */
  function ImportCategories(st: ImportState, categories: seq<(string, CategoryData)>): (r: ImportState)
    requires TableModelled(st.table)
    ensures TableModelled(r.table)
  {
    if categories == [] then st
    else
      var before := ImportCategories(st, categories[..|categories| - 1]);
      var (category, data) := categories[|categories| - 1];
      var base := before.(results := before.results[category := map[]]);
      if data.None? then base.(warnings := base.warnings + [UnreadableCategory(category)])
      else
        var existing := CategoryOf(before.table, category);
        ImportEntriesKeepsShape(base, category, existing, data.value);
        ImportEntries(base, category, existing, data.value)
  }

  /**
   * A `null` category is a warning, not a failure: its result set is reset
   * to empty, nothing is written and the import goes on.
   */
  lemma ImportWarnsOnUnreadableCategory(st: ImportState, categories: seq<(string, CategoryData)>, category: string)
    requires TableModelled(st.table)
    ensures var before := ImportCategories(st, categories);
      ImportCategories(st, categories + [(category, None)])
      == before.(results := before.results[category := map[]], warnings := before.warnings + [UnreadableCategory(category)])
  {
    assert (categories + [(category, None)])[..|categories|] == categories;
  }

  /**
   * Within one category (keys unique, as in a JSON object), every entry the
   * import writes ends up stored as its formatted value, in the clear even
   * for an encrypted setting.
   */
  lemma {:induction false} ImportEntriesWrites(st: ImportState, category: string, existing: Category, entries: seq<(string, Value)>)
    requires CategoryModelled(existing) && existing == CategoryOf(st.table, category) && UniqueKeys(entries)
    ensures var rows := CategoryOf(ImportEntries(st, category, existing, entries).table, category);
      forall i | 0 <= i < |entries| && Writes(existing, entries[i].0, entries[i].1) ::
        entries[i].0 in rows && rows[entries[i].0] == Imported(existing[entries[i].0], entries[i].1)
  {
    if entries != [] {
      var init := entries[..|entries| - 1];
      var (key, settingData) := entries[|entries| - 1];
      assert UniqueKeys(init);
      ImportEntriesWrites(st, category, existing, init);
      var before := ImportEntries(st, category, existing, init);
      ImportSettingRows(before, category, existing, key, settingData);
      var rows := CategoryOf(ImportEntries(st, category, existing, entries).table, category);
      forall i | 0 <= i < |entries| && Writes(existing, entries[i].0, entries[i].1)
        ensures entries[i].0 in rows && rows[entries[i].0] == Imported(existing[entries[i].0], entries[i].1)
      {
        if i < |init| {
          assert init[i] == entries[i];
          assert entries[i].0 != key;
        }
      }
    }
  }

  /**
   * A row no entry writes keeps its stored value; this covers the rows whose
   * entry carried the encrypted placeholder, so an exported secret survives
   * the import of its own export.
   */
  lemma {:induction false} ImportEntriesKeeps(st: ImportState, category: string, existing: Category, entries: seq<(string, Value)>, k: string)
    requires CategoryModelled(existing) && existing == CategoryOf(st.table, category) && k in existing
    requires forall i | 0 <= i < |entries| && entries[i].0 == k :: !Writes(existing, k, entries[i].1)
    ensures var rows := CategoryOf(ImportEntries(st, category, existing, entries).table, category);
      k in rows && rows[k] == existing[k]
  {
    if entries != [] {
      var init := entries[..|entries| - 1];
      var (key, settingData) := entries[|entries| - 1];
      assert forall i | 0 <= i < |init| :: init[i] == entries[i];
      ImportEntriesKeeps(st, category, existing, init, k);
      var before := ImportEntries(st, category, existing, init);
      ImportSettingRows(before, category, existing, key, settingData);
      if key == k {
        assert entries[|entries| - 1].0 == k;
      }
    }
  }

  /** The rows of the category after one setting: rewritten at that key when the entry writes, unchanged otherwise. */
  lemma ImportSettingRows(st: ImportState, category: string, existing: Category, key: string, settingData: Value)
    requires CategoryModelled(existing)
    ensures var rows := CategoryOf(ImportSetting(st, category, existing, key, settingData).table, category);
      if Writes(existing, key, settingData) then rows == CategoryOf(st.table, category)[key := Imported(existing[key], settingData)]
      else rows == CategoryOf(st.table, category)
  {
  }

  /** An unknown key is a warning, not a failure: the import goes on with the next entry. */
  lemma ImportWarnsOnUnknownKey(st: ImportState, category: string, existing: Category, key: string, settingData: Value)
    requires CategoryModelled(existing) && key !in existing
    ensures ImportSetting(st, category, existing, key, settingData)
         == st.(warnings := st.warnings + [Missing(category, key)])
  {
  }

  /**
   * `POST /import`: `payload` holds the categories of `importData.settings`
   * in order, `None` when that property is missing or not an object.
   */
  method ImportSettings(table: Table, payload: Option<seq<(string, CategoryData)>>)
    returns (newTable: Table, result: Result<ImportOutcome, ImportError>)
    requires TableModelled(table)
    ensures payload.None? ==> newTable == table && result == Failure(InvalidFormat)
    ensures payload.Some? ==>
      var st := ImportCategories(ImportState(table, map[], [], 0), payload.value);
      newTable == st.table && result == Success(ImportOutcome(st.results, st.warnings, st.total))
  {
    if payload.None? {
      return table, Failure(InvalidFormat);
    }
    var categories := payload.value;
    var st0 := ImportState(table, map[], [], 0);
    var st := st0;
    for i := 0 to |categories|
      invariant st == ImportCategories(st0, categories[..i])
    {
      var (category, data) := categories[i];
      assert categories[..i + 1][..i] == categories[..i];
      var existing := CategoryOf(st.table, category);
      var base := st.(results := st.results[category := map[]]);
      if data.None? {
        st := base.(warnings := base.warnings + [UnreadableCategory(category)]);
        continue;
      }
      var entries := data.value;
      st := base;
      for j := 0 to |entries|
        invariant st == ImportEntries(base, category, existing, entries[..j])
      {
        var (key, settingData) := entries[j];
        assert entries[..j + 1][..j] == entries[..j];
        st := ImportSetting(st, category, existing, key, settingData);
      }
      assert entries[..|entries|] == entries;
    }
    assert categories[..|categories|] == categories;
    newTable := st.table;
    result := Success(ImportOutcome(st.results, st.warnings, st.total));
  }

  // ------------------------------------------------- export/import round trip

  /** The export file's JSON object for one entry. */
  function EntryObject(e: Exported): Value
  {
    Obj(map["value" := e.value, "data_type" := Str(e.dataType), "description" := e.description])
  }

  /** A stored text in the form its type writes it: "true"/"false" for booleans, non-empty otherwise. */
  predicate Canonical(text: string, dataType: string)
  {
    if dataType == "boolean" then text == "true" || text == "false" else text != ""
  }

  /**
   * Exporting a plain setting and importing the file entry stores the very
   * text that was exported, under the corrected reading that takes the
   * entry's own value whenever it has one.
   */
  lemma ExportImportRoundTrip(row: Row)
    requires Modelled(row.dataType) && !row.encrypted && row.value.Some? && Canonical(row.value.value, row.dataType)
    ensures FormatSettingValue(ImportedValue(EntryObject(ExportEntry(row))), row.dataType) == row.value.value
  {
    if row.dataType == "boolean" {
      BooleanTextRoundTrip(row.value.value);
    } else {
      TextRoundTrip(row.value.value, row.dataType);
    }
  }

  /**
   * As written, the import restores an exported plain setting's text in
   * every case but one: a boolean stored as "false".
   */
  lemma ExportImportAsWritten(row: Row)
    requires Modelled(row.dataType) && !row.encrypted && row.value.Some? && Canonical(row.value.value, row.dataType)
    ensures ValueField(EntryObject(ExportEntry(row))).Some?
    ensures FormatSettingValue(ImportedValueAsWritten(EntryObject(ExportEntry(row))), row.dataType) == row.value.value
        <==> !(row.dataType == "boolean" && row.value.value == "false")
  {
    var entry := EntryObject(ExportEntry(row));
    if row.dataType == "boolean" {
      BooleanTextRoundTrip(row.value.value);
      if row.value.value == "false" {
        assert ImportedValueAsWritten(entry) == entry;
      }
    } else {
      TextRoundTrip(row.value.value, row.dataType);
    }
  }

  /**
   * As written, an object entry whose `value` is falsy is formatted whole:
   * a text setting stores "[object Object]", a boolean setting "true".
   */
  lemma FalsyEntryValueFormatsEntry(entry: Value, dataType: string)
    requires Modelled(dataType) && entry.Obj? && !Truthy(Prop(entry.props, "value"))
    ensures ValueField(entry).Some?
    ensures FormatSettingValue(ImportedValueAsWritten(entry), dataType) == if dataType == "boolean" then "true" else "[object Object]"
  {
  }

  /** An exported encrypted setting is skipped by the import, so its stored secret survives. */
  lemma ExportedSecretSkipped(row: Row, key: string, existing: Category)
    requires Modelled(row.dataType) && row.encrypted
    ensures !Writes(existing, key, EntryObject(ExportEntry(row)))
  {
  }

  /**
   * The import as written turns an exported `false` into "true": the falsy
   * `value` makes it fall back to the whole entry object, which is truthy.
   * The corrected reading would store "false".
   */
  lemma ExportedFalseImportsAsTrue(st: ImportState, existing: Category, key: string, description: Value)
    requires CategoryModelled(existing) && key in existing && existing[key].dataType == "boolean"
    ensures
      var entry := EntryObject(ExportEntry(Row("general", key, Some("false"), "boolean", description, false)));
      var after := ImportSetting(st, "general", existing, key, entry);
      key in CategoryOf(after.table, "general") && CategoryOf(after.table, "general")[key].value == Some("true")
      && FormatSettingValue(ImportedValue(entry), "boolean") == "false"
  {
    var entry := EntryObject(ExportEntry(Row("general", key, Some("false"), "boolean", description, false)));
    assert ExportEntry(Row("general", key, Some("false"), "boolean", description, false)).value == Bool(false);
    assert ImportedValueAsWritten(entry) == entry;
  }
}
