/**
 * The accumulator the three ISO 639 pipelines fill (`Data`), its ingestors,
 * and the finalizers that turn it into the context handed to the template.
 * Each pipeline is: a fresh `Data`, one or two ingestors, one finalizer.
 */
module Build {
  import opened Wrappers
  import opened Ordering
  import opened Rows
  import opened Macros

  /** What the template receives. Parts 1 and 5 have no macro-language map. */
  datatype Context = Context(
    typeName: string,
    allIds: seq<string>,
    codes: map<string, Row>,
    macroLangs: Option<MacroMap>)

  /** The code of every row, in row order. */
  function CodesOf(rows: seq<Row>): (ids: seq<string>)
    ensures |ids| == |rows| && forall i :: 0 <= i < |rows| ==> ids[i] == rows[i].code
  {
    seq(|rows|, i requires 0 <= i < |rows| => rows[i].code)
  }

  /** The codes that occur in `rows`. */
  function CodeSet(rows: seq<Row>): set<string>
  {
    set row | row in rows :: row.code
  }

  /** No later row has the code of row `i`. */
  predicate IsLast(rows: seq<Row>, i: int)
    requires 0 <= i < |rows|
  {
    forall j :: i < j < |rows| ==> rows[j].code != rows[i].code
  }

  /** The code-to-row map, built by inserting the rows in order. */
  function CodesMap(rows: seq<Row>): (m: map<string, Row>)
    ensures m.Keys == CodeSet(rows)
  {
    if rows == [] then map[]
    else
      var init := rows[..|rows| - 1];
      var last := rows[|rows| - 1];
      assert rows == init + [last];
      CodesMap(init)[last.code := last]
  }

  /** Last write wins: a code maps to the last row that carries it. */
  lemma {:induction false} CodesMapLastWins(rows: seq<Row>, i: int)
    requires 0 <= i < |rows| && IsLast(rows, i)
    ensures rows[i].code in CodesMap(rows) && CodesMap(rows)[rows[i].code] == rows[i]
  {
    var n := |rows| - 1;
    var init := rows[..n];
    assert CodesMap(rows) == CodesMap(init)[rows[n].code := rows[n]];
    if i < n {
      assert rows[n].code != rows[i].code;
      assert init[i] == rows[i];
      assert IsLast(init, i) by {
        forall j | i < j < n ensures init[j].code != init[i].code {
          assert init[j] == rows[j];
        }
      }
      CodesMapLastWins(init, i);
    }
  }

  /** What every finalizer promises about the context it builds from `rows`. */
  ghost predicate Finalized(ctx: Context, rows: seq<Row>)
  {
    && ctx.typeName == "LanguageCode"
    // all_ids: ordered, without repeats, and exactly the codes of the rows
    && StrictlyAscending(ctx.allIds)
    && (forall x :: x in ctx.allIds <==> x in CodeSet(rows))
    // codes: keyed by the same codes, each holding the last row with it
    && ctx.codes.Keys == CodeSet(rows)
    && (forall i :: 0 <= i < |rows| && IsLast(rows, i) ==>
          rows[i].code in ctx.codes && ctx.codes[rows[i].code] == rows[i])
  }

  /** Every code of the rows has a last row carrying it. */
  lemma {:induction false} LastIndexExists(rows: seq<Row>, code: string)
    requires code in CodeSet(rows)
    ensures exists i :: 0 <= i < |rows| && rows[i].code == code && IsLast(rows, i)
  {
    var n := |rows| - 1;
    if rows[n].code != code {
      var init := rows[..n];
      assert code in CodeSet(init) by {
        var row :| row in rows && row.code == code;
        var k :| 0 <= k < |rows| && rows[k] == row;
        assert k < n && init[k] == row;
      }
      LastIndexExists(init, code);
      var i :| 0 <= i < n && init[i].code == code && IsLast(init, i);
      assert rows[i] == init[i];
      assert forall j :: i < j < n ==> rows[j] == init[j];
      assert IsLast(rows, i);
    }
  }

  /** `Finalized` leaves no freedom: two contexts finalized from the same
      rows have the same all_ids and the same codes map. */
  lemma FinalizedDeterminate(c1: Context, c2: Context, rows: seq<Row>)
    requires Finalized(c1, rows) && Finalized(c2, rows)
    ensures c1.typeName == c2.typeName && c1.allIds == c2.allIds && c1.codes == c2.codes
  {
    StrictlyAscendingUnique(c1.allIds, c2.allIds);
    forall code | code in c1.codes ensures c1.codes[code] == c2.codes[code] {
      LastIndexExists(rows, code);
    }
  }

  /** The part the three finalizers share: the type name, all_ids (collect
      the codes, sort in place, dedup in place) and the codes map. */
  method FinalizeRows(rows: seq<Row>) returns (ctx: Context)
    ensures Finalized(ctx, rows)
    ensures ctx.macroLangs == None
  {
    var allIds := CodesOf(rows);
    assert forall x :: x in allIds <==> x in CodeSet(rows) by {
      forall x ensures x in allIds <==> x in CodeSet(rows) {
        if x in allIds {
          var i :| 0 <= i < |allIds| && allIds[i] == x;
          assert rows[i] in rows;
        }
        if x in CodeSet(rows) {
          var row :| row in rows && row.code == x;
          var i :| 0 <= i < |rows| && rows[i] == row;
          assert allIds[i] == x;
        }
      }
    }
    ghost var collected := allIds;
    allIds := Sort(allIds);
    assert forall x :: x in allIds <==> x in collected by {
      forall x ensures x in allIds <==> x in collected {
        assert x in allIds <==> x in multiset(allIds);
        assert x in collected <==> x in multiset(collected);
      }
    }
    DedupSortedStrict(allIds);
    allIds := Dedup(allIds);
    forall i | 0 <= i < |rows| && IsLast(rows, i)
      ensures rows[i].code in CodesMap(rows) && CodesMap(rows)[rows[i].code] == rows[i]
    {
      CodesMapLastWins(rows, i);
    }
    ctx := Context("LanguageCode", allIds, CodesMap(rows), None);
  }

  /** The accumulator: rows in encounter order and the macro-language map. */
  class Data {
    var rows: seq<Row>
    var macros: MacroMap

    /** The empty accumulator every pipeline starts from. */
    constructor ()
      ensures rows == [] && macros == map[]
    {
      rows := [];
      macros := map[];
    }

    /** Reads the part-1 table: one row per record, appended in order. */
    method ProcessPart1(records: seq<seq<string>>)
      requires forall i :: 0 <= i < |records| ==> |records[i]| >= 3
      modifies this
      ensures |rows| == |old(rows)| + |records|
      ensures rows[..|old(rows)|] == old(rows)
      ensures forall i :: 0 <= i < |records| ==> rows[|old(rows)| + i] == Part1Row(records[i])
      ensures macros == old(macros)
    {
      var i := 0;
      while i < |records|
        invariant 0 <= i <= |records|
        invariant |rows| == |old(rows)| + i
        invariant rows[..|old(rows)|] == old(rows)
        invariant forall j :: 0 <= j < i ==> rows[|old(rows)| + j] == Part1Row(records[j])
        invariant macros == old(macros)
      {
        rows := rows + [Part1Row(records[i])];
        i := i + 1;
      }
    }

    /** Reads the part-3 table: one row per record, appended in order, until
        a record with an unknown scope or language type stops the run with
        that fault; the rows before it have been appended. */
    method ProcessPart3(records: seq<seq<string>>) returns (fault: Option<Fault>)
      requires forall i :: 0 <= i < |records| ==> |records[i]| >= 8
      modifies this
      ensures |old(rows)| <= |rows| <= |old(rows)| + |records|
      ensures rows[..|old(rows)|] == old(rows)
      ensures forall i :: 0 <= i < |rows| - |old(rows)| ==>
                Part3Row(records[i]) == Ok(rows[|old(rows)| + i])
      ensures fault.None? <==> |rows| == |old(rows)| + |records|
      ensures fault.Some? ==> Part3Row(records[|rows| - |old(rows)|]) == Err(fault.value)
      ensures macros == old(macros)
    {
      fault := None;
      var i := 0;
      while i < |records|
        invariant 0 <= i <= |records|
        invariant |rows| == |old(rows)| + i
        invariant rows[..|old(rows)|] == old(rows)
        invariant forall j :: 0 <= j < i ==> Part3Row(records[j]) == Ok(rows[|old(rows)| + j])
        invariant macros == old(macros)
      {
        var row := Part3Row(records[i]);
        if row.Err? {
          fault := Some(row.error);
          return;
        }
        rows := rows + [row.value];
        i := i + 1;
      }
    }

    /** Reads the part-3 macro-language table into `macros`. */
    method ProcessPart3Macros(records: seq<seq<string>>)
      requires WellFormed(records)
      modifies this
      ensures macros == AddMacros(old(macros), records)
      ensures rows == old(rows)
    {
      var i := 0;
      while i < |records|
        invariant 0 <= i <= |records|
        invariant macros == AddMacros(old(macros), records[..i])
        invariant rows == old(rows)
      {
        var record := records[i];
        if record[2] == "A" {
          var macroCode := record[0];
          if macroCode in macros {
            macros := macros[macroCode := macros[macroCode] + [record[1]]];
          } else {
            macros := macros[macroCode := [record[1]]];
          }
        }
        assert records[..i + 1][..i] == records[..i];
        i := i + 1;
      }
      assert records[..|records|] == records;
    }

    /** Reads the part-5 table: one row per record, appended in order. */
    method ProcessPart5(records: seq<seq<string>>)
      requires forall i :: 0 <= i < |records| ==> |records[i]| >= 3
      modifies this
      ensures |rows| == |old(rows)| + |records|
      ensures rows[..|old(rows)|] == old(rows)
      ensures forall i :: 0 <= i < |records| ==> rows[|old(rows)| + i] == Part5Row(records[i])
      ensures macros == old(macros)
    {
      var i := 0;
      while i < |records|
        invariant 0 <= i <= |records|
        invariant |rows| == |old(rows)| + i
        invariant rows[..|old(rows)|] == old(rows)
        invariant forall j :: 0 <= j < i ==> rows[|old(rows)| + j] == Part5Row(records[j])
        invariant macros == old(macros)
      {
        rows := rows + [Part5Row(records[i])];
        i := i + 1;
      }
    }
  }

  /** The part-1 context. */
  method FinalizePart1(data: Data) returns (ctx: Context)
    ensures Finalized(ctx, data.rows)
    ensures ctx.macroLangs == None
  {
    ctx := FinalizeRows(data.rows);
  }

  /** The part-3 context, which also carries the macro-language map as is. */
  method FinalizePart3(data: Data) returns (ctx: Context)
    ensures Finalized(ctx, data.rows)
    ensures ctx.macroLangs == Some(data.macros)
  {
    ctx := FinalizeRows(data.rows);
    ctx := ctx.(macroLangs := Some(data.macros));
  }

  /** The part-5 context. */
  method FinalizePart5(data: Data) returns (ctx: Context)
    ensures Finalized(ctx, data.rows)
    ensures ctx.macroLangs == None
  {
    ctx := FinalizeRows(data.rows);
  }
}
