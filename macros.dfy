/**
 * The macro-language relationship table of part 3: each record names a macro
 * language (column 0), one of its individual languages (column 1) and a
 * status (column 2). Only active records ("A") count; the individual code is
 * appended to the list kept under the macro code, which is created on first
 * sight. Nothing is deduplicated and no code is checked against the rows.
 */
module Macros {

  type MacroMap = map<string, seq<string>>

  /** Every record has the three columns the table is read by. */
  predicate WellFormed(records: seq<seq<string>>)
  {
    forall i :: 0 <= i < |records| ==> |records[i]| >= 3
  }

  /** The effect of one record on the map. */
  function AddMacro(m: MacroMap, record: seq<string>): (r: MacroMap)
    requires |record| >= 3
    ensures record[2] != "A" ==> r == m
    ensures record[2] == "A" ==> r.Keys == m.Keys + {record[0]}
    ensures record[2] == "A" ==>
              r[record[0]] == (if record[0] in m then m[record[0]] else []) + [record[1]]
    ensures forall k :: k in m && k != record[0] ==> k in r && r[k] == m[k]
  {
    if record[2] == "A" then
      var macroCode := record[0];
      if macroCode in m then m[macroCode := m[macroCode] + [record[1]]]
      else m[macroCode := [record[1]]]
    else m
  }

  /** The records applied one after the other, first to last. */
  function AddMacros(m: MacroMap, records: seq<seq<string>>): MacroMap
    requires WellFormed(records)
  {
    if records == [] then m
    else AddMacro(AddMacros(m, records[..|records| - 1]), records[|records| - 1])
  }

  /** The individual codes that active records list under `macroCode`, in
      record order, repeats included. */
  function Members(records: seq<seq<string>>, macroCode: string): (codes: seq<string>)
    requires WellFormed(records)
  {
    if records == [] then []
    else
      var last := records[|records| - 1];
      Members(records[..|records| - 1], macroCode)
        + (if last[2] == "A" && last[0] == macroCode then [last[1]] else [])
  }

  /** After the table is read, a macro code is a key exactly when it was one
      before or some active record names it, and its list is the old list
      (or none) followed by that code's active members in record order. */
  lemma {:induction false} AddMacrosCollects(m: MacroMap, records: seq<seq<string>>)
    requires WellFormed(records)
    ensures forall k :: k in AddMacros(m, records) <==> k in m || Members(records, k) != []
    ensures forall k :: k in AddMacros(m, records) ==>
              AddMacros(m, records)[k] == (if k in m then m[k] else []) + Members(records, k)
  {
    if records != [] {
      var init := records[..|records| - 1];
      var last := records[|records| - 1];
      AddMacrosCollects(m, init);
      var before := AddMacros(m, init);
      forall k ensures k in AddMacros(m, records) <==> k in m || Members(records, k) != [] {
        if last[2] == "A" && last[0] == k {
          assert Members(records, k) == Members(init, k) + [last[1]];
        } else {
          assert Members(records, k) == Members(init, k);
        }
      }
    }
  }

  /** An inactive record leaves every list as it is. */
  lemma InactiveIgnored(m: MacroMap, records: seq<seq<string>>, record: seq<string>)
    requires WellFormed(records) && |record| >= 3 && record[2] != "A"
    ensures AddMacros(m, records + [record]) == AddMacros(m, records)
  {
  }
}
