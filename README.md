# Tantivy schema: field-name validation

A Dafny model of the field-name check of tantivy's schema layer
(`src/schema/mod.rs`). `is_valid_field_name` matches the name against the regular expression `[_a-zA-Z0-9]+`, compiled once
and cached. Its caller, the schema registry in `mod schema`, is not part of
this model. The pattern is not anchored, and `is_match` reports a match found
anywhere in the name.

The project has two modules:

- `FieldNamePattern` (`pattern.dfy`) models the compiled pattern. It defines
  the character class, the language of `[_a-zA-Z0-9]+` over spans of the
  haystack (`MatchesAt`, `HasMatch`), and the left-to-right greedy search
  `Find`. `Find` is proved to report the leftmost-longest match exactly when
  one exists.
- `FieldName` (`field_name.dfy`) models `is_valid_field_name` as written
  (`IsValidFieldName`). It also models the rule stated in the module
  documentation (`IsDocumentedFieldName`) and the anchored pattern
  `^[_a-zA-Z0-9]+$` that decides that rule (`IsValidFieldNameAnchored`). Its
  lemmas relate the three. Line 9 says nothing about the empty name; the
  model reads the rule as excluding it, as the `+` of the anchored pattern
  does.

Names are `string` (`seq<char>`). The class is the ASCII ranges only, so any
non-ASCII character, such as `é`, falls outside it.

## Model

Two predicates carry no contract of their own and so have no row: the
character class `[_a-zA-Z0-9]` of src/schema/mod.rs:129 is
`FieldNamePattern.IsFieldChar`, and the documented rule of
src/schema/mod.rs:9 is `FieldName.IsDocumentedFieldName`.

| member | source | states |
|---|---|---|
| FieldNamePattern.RunEnd | src/schema/mod.rs:129 | the greedy `+` run from a position ends at the first character outside the class (or at the end); every character it covers is in the class |
| FieldNamePattern.FindFrom | src/schema/mod.rs:129-131 | searching from a position finds a non-empty all-class span that starts at the first class character and cannot be extended; no match means no class character remains |
| FieldNamePattern.Find | src/schema/mod.rs:129-131 | a match is reported iff the pattern's language occurs somewhere in the name; the reported span is in the language and is leftmost, and longest among the spans starting there |
| FieldNamePattern.HasMatchIffSomeFieldChar | src/schema/mod.rs:129 | `[_a-zA-Z0-9]+` occurs in a string iff one of its characters is in the class |
| FieldName.IsValidFieldName | src/schema/mod.rs:127-132 | `is_valid_field_name` returns true iff the unanchored pattern matches somewhere in the name |
| FieldName.ValidIffSomeFieldChar | src/schema/mod.rs:129-131 | a name is accepted iff at least one of its characters is `_`, an ASCII letter or an ASCII digit |
| FieldName.NoFieldCharRejected | src/schema/mod.rs:129-131 | a name with no character from the class is rejected |
| FieldName.EmptyNameRejected | src/schema/mod.rs:129-131 | the empty name is rejected, since `+` needs one character |
| FieldName.SymbolOnlyNamesRejected | src/schema/mod.rs:129 | `"-"`, `" "` and `"é"` are rejected: the class holds ASCII ranges only |
| FieldName.DocumentedImpliesValid | src/schema/mod.rs:9 | every non-empty name of letters, digits and `_` only, as the documentation allows, passes the implemented check |
| FieldName.DocExampleNamesAccepted | src/schema/mod.rs:34 | the example names `title_options` (line 34) and `num_stars` (line 75) pass both the implemented and the anchored check |
| FieldName.ExtensionPreservesValidity | src/schema/mod.rs:131 | if a name is accepted, then so is the name with any text added before it or after it |
| FieldName.ValidDoesNotImplyDocumented | src/schema/mod.rs:131 | `"a-b"` and `"title options"` are accepted although the documented rule forbids them |
| FieldName.IsValidFieldNameAnchored | src/schema/mod.rs:9 | the anchored pattern accepts a name iff it is non-empty and every character is in the class |
| FieldName.ChecksDifferExactly | src/schema/mod.rs:131 | the implemented check accepts a name the anchored check rejects iff the name holds both a class character and a character outside the class |
| FieldName.AnchoredRefinesValid | src/schema/mod.rs:9 | the anchored check implies the implemented one, and it rejects `"a-b"` and `"title options"` |

## Findings

| source | as written | input that shows it | evidently intended | confidence | as-written member | corrected member |
|---|---|---|---|---|---|---|
| src/schema/mod.rs:129-131 | the pattern `[_a-zA-Z0-9]+` is not anchored, so `is_match` accepts any name containing one class character | `"a-b"`, `"title options"` | line 9 says a field name may only contain `[a-zA-Z]`, `[0-9]` and `_`, so the pattern should be anchored as `^[_a-zA-Z0-9]+$` | medium; not executed | FieldName.ValidDoesNotImplyDocumented | FieldName.IsValidFieldNameAnchored |

## Left out

- The `lazy_static!` one-time compilation of the pattern and its `.unwrap()` (src/schema/mod.rs:128-129). This is initialisation plumbing, so the compiled pattern is modelled as a fixed predicate.
- The regex engine in general (src/schema/mod.rs:125). It is a foreign library. Only the meaning of this one pattern is modelled.
- That the result depends only on the name and never on the cached pattern's state. This holds by construction, because `IsValidFieldName` is a Dafny function, so there is no separate lemma.
- Schema, Term, Document, FieldEntry, FieldValue, Field, TextOptions, U32Options and the `TEXT`, `STRING`, `STORED` and `FAST` shortcuts (src/schema/mod.rs:95-123). Their source files are not part of this model. Registry behaviour, option union and term encoding therefore cannot be checked against code.
- The `meta.json` persistence and `searcher.doc(...)` retrieval mentioned in the documentation (src/schema/mod.rs:16-17, 47-48). They are I/O and other subsystems.
- The module documentation (src/schema/mod.rs:9) says a field name may only contain ASCII letters, digits and `_`. The code accepts any name that contains one such character. The model follows the code in `IsValidFieldName` and records the difference under Findings.
