/**
 * One row per table record. A record is the list of already-trimmed fields of
 * one tab-separated line, addressed by column position; each builder reads
 * the columns of its own table and requires that the record has them
 * (the build script unwraps each column and would panic on a short record).
 */
module Rows {
  import opened Wrappers
  import opened Text

  /** The two faults the build script reaches through `unreachable!()`. */
  datatype Fault =
    | UnrecognizedScope(raw: string)
    | UnrecognizedLanguageType(raw: string)

  /** A row as handed to the template. Parts 1 and 5 carry a code and a label;
      part 3 carries the decoded categorical fields and two optional fields. */
  datatype Row =
    | LabelRow(code: string, labelText: string)
    | LanguageRow(
        code: string,
        part1Code: Option<string>,
        scope: string,
        languageType: string,
        refName: string,
        comment: Option<string>)

  /** Column markers of the scope decode table and the labels they decode to. */
  const ScopeCodes: set<string> := {"C", "D", "I", "M", "R", "S"}
  const ScopeNames: set<string> :=
    {"Collection", "Dialect", "Individual", "Macro", "Reserved", "Special"}

  /** Column markers of the language-type decode table and their labels. */
  const LanguageTypeCodes: set<string> := {"A", "C", "E", "H", "L", "S"}
  const LanguageTypeNames: set<string> :=
    {"Ancient", "Constructed", "Extinct", "Historic", "Living", "Special"}

  /** The closed scope table; any other marker is a fault. */
  function DecodeScope(raw: string): (r: Result<string, Fault>)
    ensures r.Ok? <==> raw in ScopeCodes
    ensures r.Ok? ==> r.value in ScopeNames
    ensures r.Err? ==> r.error == UnrecognizedScope(raw)
  {
    match raw
    case "C" => Ok("Collection")
    case "D" => Ok("Dialect")
    case "I" => Ok("Individual")
    case "M" => Ok("Macro")
    case "R" => Ok("Reserved")
    case "S" => Ok("Special")
    case _ => Err(UnrecognizedScope(raw))
  }

  /** The marker a scope label is written with (the inverse table). */
  function ScopeMarker(name: string): (raw: string)
    requires name in ScopeNames
    ensures raw in ScopeCodes
  {
    match name
    case "Collection" => "C"
    case "Dialect" => "D"
    case "Individual" => "I"
    case "Macro" => "M"
    case "Reserved" => "R"
    case "Special" => "S"
  }

  /** The scope table is a bijection between its six markers and six labels. */
  lemma ScopeRoundTrip(raw: string, name: string)
    ensures raw in ScopeCodes ==> ScopeMarker(DecodeScope(raw).value) == raw
    ensures name in ScopeNames ==> DecodeScope(ScopeMarker(name)) == Ok(name)
  {
  }

  /** The closed language-type table; any other marker is a fault. */
  function DecodeLanguageType(raw: string): (r: Result<string, Fault>)
    ensures r.Ok? <==> raw in LanguageTypeCodes
    ensures r.Ok? ==> r.value in LanguageTypeNames
    ensures r.Err? ==> r.error == UnrecognizedLanguageType(raw)
  {
    match raw
    case "A" => Ok("Ancient")
    case "C" => Ok("Constructed")
    case "E" => Ok("Extinct")
    case "H" => Ok("Historic")
    case "L" => Ok("Living")
    case "S" => Ok("Special")
    case _ => Err(UnrecognizedLanguageType(raw))
  }

  /** The marker a language-type label is written with (the inverse table). */
  function LanguageTypeMarker(name: string): (raw: string)
    requires name in LanguageTypeNames
    ensures raw in LanguageTypeCodes
  {
    match name
    case "Ancient" => "A"
    case "Constructed" => "C"
    case "Extinct" => "E"
    case "Historic" => "H"
    case "Living" => "L"
    case "Special" => "S"
  }

  /** The language-type table is a bijection between its markers and labels. */
  lemma LanguageTypeRoundTrip(raw: string, name: string)
    ensures raw in LanguageTypeCodes ==> LanguageTypeMarker(DecodeLanguageType(raw).value) == raw
    ensures name in LanguageTypeNames ==> DecodeLanguageType(LanguageTypeMarker(name)) == Ok(name)
  {
  }

  /** The part-1 label: alternative names separated by `|` are listed with
      "; " between them; a single name is kept as it is. */
  function Label(names: string): (text: string)
    ensures text == ReplaceChar(names, '|', "; ")
    ensures '|' !in text
    ensures '|' !in names ==> text == names
  {
    JoinSplit(names, '|', "; ");
    ReplaceCharRemoves(names, '|', "; ");
    if '|' in names then Join(Split(names, '|'), "; ")
    else
      ReplaceCharAbsent(names, '|', "; ");
      names
  }

  /** Part 1: column 1 is the code, column 2 the `|`-separated names. */
  function Part1Row(record: seq<string>): (row: Row)
    requires |record| >= 3
    ensures row.LabelRow? && row.code == record[1]
    ensures row.labelText == ReplaceChar(record[2], '|', "; ")
    ensures '|' !in row.labelText
    ensures '|' !in record[2] ==> row.labelText == record[2]
  {
    LabelRow(record[1], Label(record[2]))
  }

  /** Part 3: code, optional part-1 code, scope, language type, reference
      name and optional comment, from columns 0, 3, 4, 5, 6 and 7. The scope
      is decoded before the language type, so a record with both markers
      unknown reports the scope. */
  function Part3Row(record: seq<string>): (r: Result<Row, Fault>)
    requires |record| >= 8
    ensures r.Ok? <==> record[4] in ScopeCodes && record[5] in LanguageTypeCodes
    ensures record[4] !in ScopeCodes ==> r == Err(UnrecognizedScope(record[4]))
    ensures record[4] in ScopeCodes && record[5] !in LanguageTypeCodes ==>
              r == Err(UnrecognizedLanguageType(record[5]))
    ensures r.Ok? ==> r.value.LanguageRow? && r.value.code == record[0] && r.value.refName == record[6]
    ensures r.Ok? ==> r.value.scope in ScopeNames && ScopeMarker(r.value.scope) == record[4]
    ensures r.Ok? ==> r.value.languageType in LanguageTypeNames
                      && LanguageTypeMarker(r.value.languageType) == record[5]
    // the deprecated Serbo-Croatian alias "sh" is the only value dropped
    ensures r.Ok? ==> (r.value.part1Code.Some? <==> record[3] != "sh")
    ensures r.Ok? && r.value.part1Code.Some? ==> r.value.part1Code.value == record[3]
    ensures r.Ok? ==> (r.value.comment.Some? <==> record[7] != "")
    ensures r.Ok? && r.value.comment.Some? ==> r.value.comment.value == record[7]
  {
    var part1Code := if record[3] != "sh" then Some(record[3]) else None;
    var comment := if record[7] != "" then Some(record[7]) else None;
    match DecodeScope(record[4])
    case Err(e) => Err(e)
    case Ok(scope) =>
      match DecodeLanguageType(record[5])
      case Err(e) => Err(e)
      case Ok(languageType) =>
        ScopeRoundTrip(record[4], scope);
        LanguageTypeRoundTrip(record[5], languageType);
        Ok(LanguageRow(record[0], part1Code, scope, languageType, record[6], comment))
  }

  /** Part 5: column 1 is the code and column 2 the label, both unchanged. */
  function Part5Row(record: seq<string>): (row: Row)
    requires |record| >= 3
    ensures row.LabelRow? && row.code == record[1] && row.labelText == record[2]
  {
    LabelRow(record[1], record[2])
  }
}
