/**
 * The camera-model table built from the supported-devices listing: a fold of
 * the parsed rows into a map from model to display name, later rows
 * overwriting earlier ones.
 */
module DeviceTable {
  import Text

  /** One parsed row of the listing, with the three columns the fold reads. */
  datatype DeviceRow = DeviceRow(model: string, retailBranding: string, marketingName: string)

  /**
   * The display name of one row: the marketing name when it already starts
   * with the brand (case-sensitive, so an empty brand always qualifies),
   * otherwise the brand, a space, and the marketing name or, when that is
   * empty, the model.
   */
  function DisplayName(row: DeviceRow): (name: string)
    ensures Text.StartsWith(name, row.retailBranding)
    ensures Text.StartsWith(row.marketingName, row.retailBranding) ==> name == row.marketingName
    ensures row.marketingName != "" ==> Text.EndsWith(name, row.marketingName)
    ensures !Text.StartsWith(row.marketingName, row.retailBranding) && row.marketingName == "" ==>
      Text.EndsWith(name, " " + row.model)
    ensures !Text.StartsWith(row.marketingName, row.retailBranding) ==>
      var shown := if row.marketingName != "" then row.marketingName else row.model;
      && |name| == |row.retailBranding| + 1 + |shown|
      && name[|row.retailBranding|] == ' '
      && name[|row.retailBranding| + 1..] == shown
  {
    if Text.StartsWith(row.marketingName, row.retailBranding) then row.marketingName
    else row.retailBranding + " " + (if row.marketingName != "" then row.marketingName else row.model)
  }

  /**
   * A display name is its own display name: fed back as the marketing name
   * of the same row, it already starts with the brand and is kept as it is.
   */
  lemma DisplayNameStable(row: DeviceRow)
    ensures DisplayName(row.(marketingName := DisplayName(row))) == DisplayName(row)
  {
  }

  /** The `reduce` over the rows: row `k` is written after rows `0..k`. */
  function Build(rows: seq<DeviceRow>): (table: map<string, string>)
    ensures table.Keys == set i | 0 <= i < |rows| :: rows[i].model
  {
    if |rows| == 0 then map[]
    else
      var last := rows[|rows| - 1];
      var prefix := Build(rows[..|rows| - 1]);
      assert forall i :: 0 <= i < |rows| - 1 ==> rows[..|rows| - 1][i] == rows[i];
      prefix[last.model := DisplayName(last)]
  }

  /** When several rows share a model, the table holds the display name of the last of them. */
  lemma {:induction false} LastWriteWins(rows: seq<DeviceRow>, i: nat)
    requires i < |rows|
    requires forall j :: i < j < |rows| ==> rows[j].model != rows[i].model
    ensures rows[i].model in Build(rows)
    ensures Build(rows)[rows[i].model] == DisplayName(rows[i])
  {
    var prefix := rows[..|rows| - 1];
    var last := rows[|rows| - 1];
    assert Build(rows) == Build(prefix)[last.model := DisplayName(last)];
    if i < |rows| - 1 {
      assert prefix[i] == rows[i];
      forall j | i < j < |prefix|
        ensures prefix[j].model != prefix[i].model
      {
        assert prefix[j] == rows[j];
      }
      LastWriteWins(prefix, i);
      assert last.model != rows[i].model;
    }
  }

  /** Every entry of the table is the display name of some row for that model. */
  lemma EntriesComeFromRows(rows: seq<DeviceRow>, model: string)
    requires model in Build(rows)
    ensures exists i :: 0 <= i < |rows| && rows[i].model == model && Build(rows)[model] == DisplayName(rows[i])
  {
    var i :| 0 <= i < |rows| && rows[i].model == model;
    while exists j :: i < j < |rows| && rows[j].model == model
      invariant 0 <= i < |rows| && rows[i].model == model
      decreases |rows| - i
    {
      var k :| i < k < |rows| && rows[k].model == model;
      i := k;
    }
    LastWriteWins(rows, i);
  }
}
