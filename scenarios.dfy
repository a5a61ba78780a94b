/** Worked examples proved on small tables. */
module Scenarios {
  import opened Wrappers
  import opened Ordering
  import opened Rows
  import opened Macros
  import opened Build

  /** A part-1 table listing "en" twice: all_ids is ["en", "fr"] and "en"
      maps to the later of its two rows. */
  lemma DuplicateCodeLastWins(ctx: Context)
    requires Finalized(ctx, [LabelRow("en", "English"), LabelRow("fr", "French"), LabelRow("en", "Anglais")])
    ensures ctx.allIds == ["en", "fr"]
    ensures ctx.codes["en"] == LabelRow("en", "Anglais")
  {
    var rows := [LabelRow("en", "English"), LabelRow("fr", "French"), LabelRow("en", "Anglais")];
    assert rows[0] in rows && rows[1] in rows;
    assert Less("en", "fr");
    StrictlyAscendingUnique(ctx.allIds, ["en", "fr"]);
    assert IsLast(rows, 2);
  }

  /** Two active records for "nor" keep their encounter order. */
  lemma MacroEncounterOrder()
    ensures AddMacros(map[], [["nor", "nob", "A"], ["nor", "nno", "A"]]) == map["nor" := ["nob", "nno"]]
  {
    var r1, r2 := ["nor", "nob", "A"], ["nor", "nno", "A"];
    var empty: MacroMap := map[];
    assert [r1, r2][..1] == [r1] && [r1][..0] == [];
    assert AddMacros(empty, []) == empty;
    assert AddMacros(empty, [r1]) == AddMacro(empty, r1);
    assert AddMacros(empty, [r1, r2]) == AddMacro(AddMacro(empty, r1), r2);
    var m1 := AddMacro(empty, r1);
    assert m1 == map["nor" := ["nob"]];
    assert AddMacro(m1, r2) == m1["nor" := m1["nor"] + ["nno"]];
    assert m1["nor"] + ["nno"] == ["nob", "nno"];
  }

  /** A retired record contributes nothing. */
  lemma RetiredMacroIgnored()
    ensures AddMacros(map[], [["nor", "nob", "R"]]) == map[]
  {
  }

  /** The deprecated alias "sh" never reaches a part-3 row. */
  lemma SerboCroatianAliasDropped()
    ensures Part3Row(["hbs", "hbs", "hbs", "sh", "M", "L", "Serbo-Croatian", ""])
            == Ok(LanguageRow("hbs", None, "Macro", "Living", "Serbo-Croatian", None))
  {
  }
}
