/** The label-to-key caches built from the lookup tables, and the lenient lookup. */
module LookupCache {
  import opened Wrappers
  import opened Schema

  /** Some row of the lookup table carries the label `name`. */
  predicate HasName(rows: seq<LookupRow>, name: string) {
    exists i :: 0 <= i < |rows| && rows[i].name == name
  }

  /**
   * The dict comprehension `{row.label: row.key for row in rows}`: its keys
   * are exactly the labels of the table (LastRowWins gives the values).
   */
  function BuildLookup(rows: seq<LookupRow>): (m: map<string, int>)
    ensures forall name :: name in m <==> HasName(rows, name)
  {
    if rows == [] then map[]
    else
      var init := rows[..|rows| - 1];
      var last := rows[|rows| - 1];
      assert forall i :: 0 <= i < |init| ==> init[i] == rows[i];
      assert forall name :: HasName(rows, name) ==> name == last.name || HasName(init, name) by {
        forall name | HasName(rows, name) && name != last.name ensures HasName(init, name) {
          var i :| 0 <= i < |rows| && rows[i].name == name;
          assert init[i] == rows[i];
        }
      }
      BuildLookup(init)[last.name := last.key]
  }

  /** A label carried by several rows maps to the key of the last of them. */
  lemma {:induction false} LastRowWins(rows: seq<LookupRow>, i: int)
    requires 0 <= i < |rows|
    requires forall j :: i < j < |rows| ==> rows[j].name != rows[i].name
    ensures rows[i].name in BuildLookup(rows) && BuildLookup(rows)[rows[i].name] == rows[i].key
  {
    if i < |rows| - 1 {
      var init := rows[..|rows| - 1];
      assert init[i] == rows[i];
      assert forall j :: i < j < |init| ==> init[j] == rows[j];
      LastRowWins(init, i);
    }
  }

  /** Builds the three caches from the tables AgeRanges, Regions and Indicators. */
  function BuildLookups(ageRanges: seq<LookupRow>, regions: seq<LookupRow>, indicators: seq<LookupRow>): Lookups {
    Lookups(BuildLookup(ageRanges), BuildLookup(regions), BuildLookup(indicators))
  }

  /** `m.get(cell) if pd.notna(cell) else None`: a missing cell and an unknown name both give no reference. */
  function Resolve(cell: Cell, m: map<string, int>): Option<int> {
    if cell.Some? && cell.value in m then Some(m[cell.value]) else None
  }
}
