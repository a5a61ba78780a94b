# ISO 639 code-table build step, modelled in Dafny

The `codes-iso-639` crate generates its language-code enums at build time.
Its build script reads three ISO 639 reference tables (part 1, part 3 with
its macro-language table, and part 5). It turns each into a context for a
template, which renders the Rust source. Every pipeline has the same four
stages:

1. start from an empty accumulator (`Data`: a list of rows and a
   macro-language map);
2. ingest one or two tables into it;
3. finalize it into a context;
4. render the context.

This project models stages 1 to 3.

- `wrappers.dfy`: `Option` and `Result`.
- `text.dfy`: splitting on a character and joining with a delimiter, as used
  for part-1 labels. It also gives a character-by-character reference for
  the split-then-join.
- `ordering.dfy`: the order Rust sorts `String`s by, a reference sort, and
  `Vec::dedup`. Together they model `all_ids.sort(); all_ids.dedup();`.
- `rows.dfy`: the row record, the two closed decode tables (scope, language
  type), and the per-record row builders of parts 1, 3 and 5.
- `macros.dfy`: how macro-language records accumulate into `macros`.
- `build.dfy`: the `Data` class and its ingestors (the record loops), the
  code-to-row map, and the three finalizers.
- `scenarios.dfy`: worked examples proved on small tables.

A record is the list of one line's fields, already split on tabs and trimmed.
Fields are read by position. The script `unwrap`s every column it reads, so a
short record would panic; each builder therefore requires its columns to be
present. The `unreachable!()` arms of the decode tables become a `Fault`.
The part-3 ingestor stops at the first faulting record and returns that fault.

Rust orders `String`s byte by byte over UTF-8. That is the same order as
comparing code points lexicographically, which is what `Ordering.Less` does.
`Ordering.StrictlyAscendingUnique` shows that the resulting `all_ids` does
not depend on which sorting algorithm is used.

The model follows the script as written:
- macro-language lists are never deduplicated;
- no relationship is checked against the rows, and no orphan is dropped or
  reported;
- `part_1_code` is kept even when it is empty. Only the deprecated value
  `"sh"` is removed.

## Model

| member | source | states |
|---|---|---|
| `Build.Data.constructor` | codes-iso-639/build.rs:36-43 | The accumulator starts with no rows and an empty macro-language map. |
| `Text.JoinSplit` | codes-iso-639/build.rs:67-71 | Splitting on a character and joining the pieces with a string is the same as replacing every occurrence of the character with that string. |
| `Text.Split` | codes-iso-639/build.rs:67 | Splitting always gives at least one piece, and no piece contains the separator. |
| `Text.SplitJoinRoundTrip` | codes-iso-639/build.rs:67-71 | Joining the pieces back with the separator gives the original string. |
| `Rows.Label` | codes-iso-639/build.rs:63-75 | The label is the raw names with every vertical bar replaced by `"; "`. It contains no vertical bar. A value without one is kept unchanged. |
| `Rows.Part1Row` | codes-iso-639/build.rs:57-75 | A part-1 row takes its code from column 1. Its label is column 2 with every vertical bar replaced by `"; "`, so it has no vertical bar, and it equals the raw column when that column has none. |
| `Build.Data.ProcessPart1` | codes-iso-639/build.rs:54-80 | Appends exactly one row per record, in record order. Earlier rows and `macros` are unchanged. |
| `Rows.DecodeScope` | codes-iso-639/build.rs:148-162 | Decodes exactly the markers C, D, I, M, R and S, each to one scope label. Any other marker is the fault `UnrecognizedScope` carrying that marker. |
| `Rows.ScopeRoundTrip` | codes-iso-639/build.rs:151-158 | The scope table is a bijection: C→Collection, D→Dialect, I→Individual, M→Macro, R→Reserved, S→Special. |
| `Rows.DecodeLanguageType` | codes-iso-639/build.rs:164-178 | Decodes exactly the markers A, C, E, H, L and S. Any other marker is the fault `UnrecognizedLanguageType` carrying that marker. |
| `Rows.LanguageTypeRoundTrip` | codes-iso-639/build.rs:167-174 | The language-type table is a bijection: A→Ancient, C→Constructed, E→Extinct, H→Historic, L→Living, S→Special. |
| `Rows.Part3Row` | codes-iso-639/build.rs:136-188 | A row is built exactly when both markers decode. An unknown scope is reported before the language type is looked at. See the notes after the table. |
| `Build.Data.ProcessPart3` | codes-iso-639/build.rs:133-193 | Appends one row per record, in order. Stops at the first record that faults and returns that fault. Earlier rows and `macros` are unchanged. |
| `Macros.AddMacro` | codes-iso-639/build.rs:208-217 | A record whose status is not "A" changes nothing. An active record appends column 1 to the end of the list under column 0, creating a one-element list if the key is absent. All other keys are unchanged. |
| `Macros.AddMacrosCollects` | codes-iso-639/build.rs:205-218 | After a table is read, a key is present exactly when it was present before or some active record names it. Its list is the old list (or an empty one) followed by that key's active individual codes, in record order, repeats kept. |
| `Macros.InactiveIgnored` | codes-iso-639/build.rs:208 | A record that is not active leaves the map unchanged. |
| `Build.Data.ProcessPart3Macros` | codes-iso-639/build.rs:205-220 | The new `macros` is the old one with every record applied in order. `rows` is unchanged. |
| `Rows.Part5Row` | codes-iso-639/build.rs:276-285 | A part-5 row takes its code from column 1 and its label from column 2, both unchanged. |
| `Build.Data.ProcessPart5` | codes-iso-639/build.rs:273-290 | Appends exactly one row per record, in record order. Earlier rows and `macros` are unchanged. |
| `Ordering.LessTotal` | codes-iso-639/build.rs:96 | The string order is total: two different strings are always ordered one way or the other. |
| `Ordering.Sort` | codes-iso-639/build.rs:96 | Sorting gives an ordered permutation of the codes. |
| `Ordering.Dedup` | codes-iso-639/build.rs:97 | Dedup keeps exactly the same elements and the same first element, and leaves no two equal neighbours. |
| `Ordering.DedupSortedStrict` | codes-iso-639/build.rs:96-97 | Deduplicating a sorted list gives a strictly ascending one. |
| `Ordering.StrictlyAscendingUnique` | codes-iso-639/build.rs:91-97 | Two strictly ascending lists with the same elements are equal, so `all_ids` is determined by the set of codes alone. |
| `Build.CodesMap` | codes-iso-639/build.rs:104-117 | The keys of the code-to-row map are exactly the codes of the rows. |
| `Build.CodesMapLastWins` | codes-iso-639/build.rs:107-116 | Last write wins: a row with no later row of the same code is the value under its code. |
| `Build.FinalizedDeterminate` | codes-iso-639/build.rs:91-117 | Two contexts finalized from the same rows have the same type name, `all_ids` and `codes`. |
| `Build.FinalizeRows` | codes-iso-639/build.rs:84-117 | Shared finalizer step. See the notes after the table. |
| `Build.FinalizePart1` | codes-iso-639/build.rs:83-122 | The part-1 context satisfies `Finalized` for the accumulated rows and has no macro-language map. |
| `Build.FinalizePart3` | codes-iso-639/build.rs:223-262 | The part-3 context satisfies `Finalized` for the accumulated rows, and its `macro_langs` is the accumulated macro-language map, unchanged. |
| `Build.FinalizePart5` | codes-iso-639/build.rs:293-330 | The part-5 context satisfies `Finalized` for the accumulated rows and has no macro-language map. |
| `Scenarios.DuplicateCodeLastWins` | codes-iso-639/build.rs:91-117 | With rows en, fr, en, `all_ids` is ["en", "fr"] and "en" maps to the second "en" row. |
| `Scenarios.MacroEncounterOrder` | codes-iso-639/build.rs:205-218 | Two active records for "nor" give the list ["nob", "nno"], in that order. |
| `Scenarios.RetiredMacroIgnored` | codes-iso-639/build.rs:208 | A record whose status is "R" adds no key. |
| `Scenarios.SerboCroatianAliasDropped` | codes-iso-639/build.rs:142-146 | A part-3 record whose column 3 is "sh" gives a row without `part_1_code`. |

Notes on two rows:
- `Rows.Part3Row`: the row's code comes from column 0 and `ref_name` from
  column 6. The scope and language type are the decoded labels of columns 4
  and 5. `part_1_code` is present exactly when column 3 is not `"sh"`, and
  then equals column 3, even when it is empty. `comment` is present exactly
  when column 7 is non-empty, and then equals it.
- `Build.FinalizeRows`: `type_name` is `"LanguageCode"`. `all_ids` is
  strictly ascending and holds exactly the row codes. The `codes` map has
  those same codes as keys, and each maps to the last row carrying it.

## Left out

- Opening the table files under `DEFAULT_DATA_DIR`, the csv reader's
  configuration (header skipping, tab delimiter, trimming) and its per-record
  read errors (`result?`). This is input handling. Records are given as
  already-split, trimmed field lists.
- `tera::Context`, the JSON `Value`/`Map` types, `make_default_renderer` and
  template rendering. These belong to a foreign library. The context is the
  plain datatype `Build.Context`, whose `macroLangs` is `None` where the
  script inserts no `macro_langs`. The key order of the JSON maps is not
  modelled; the templates are not part of this model, so it is assumed
  they do not depend on that order.
- `main`, `process` and `default_init`. These are orchestration, and the
  `codes_common` crate they come from is not part of this model.
- The `println!` debug dump in `finalize_part1`. It is output only.
- A panic on a record with too few columns. It is a precondition of each
  builder rather than a modelled fault.
- `Ordering.Sort`: this is a reference insertion sort, not the standard
  library's algorithm. Only the result is claimed to agree: by
  `Ordering.StrictlyAscendingUnique`, any sort followed by dedup gives the
  same `all_ids`.
- `Build.Data.ProcessPart3`: the script panics on an unknown marker and no
  accumulator survives. The model instead returns the fault and keeps the
  rows appended before it.
- Ownership: the script moves `Data` through each stage. The model passes a
  `Data` object, and the finalizers only read it.
- `codes-iso-4217/src/lib.rs`. It holds crate documentation and an `include!`
  of generated code, and no logic.
