# libcangjie-howtotype in Dafny

A model of the core of `libcangjie-howtotype`, a Rust library that answers
"which Cangjie keystrokes type this character?" by querying libcangjie's
SQLite database. The model covers:

- the **radical alphabet** `CangjieRadical` (module `Alphabet`, `alphabet.dfy`):
  the 26 radicals `A`..`Z`, their one-byte codes `a`..`z` and display glyphs
  `日月金…田難卜Ｚ`, the four conversion tables, and the derived order;
- the **keystroke code** `CangjieCode` (module `Code`, `code.dfy`): a sequence of
  radicals, parsed from bytes (`from_codes`) or glyphs (`from_radicals`),
  rendered through the `Codes` and `Radicals` display adapters, ordered
  lexicographically, and edited in place through `DerefMut` and `Extend`;
- the **lookup** `LibCangjieHowToType::how_to_type` (module `Lookup`,
  `lookup.dfy`): the version discriminator (3 or 5), the `WHERE` filter of the
  statement, and the `while let` loop that decodes every returned row.

Panics of the decoders (`from_code`, `from_radical`, and through them
`from_codes`, `from_radicals`) are modelled as `None`. The panics of
`how_to_type` (a cell that is not text, or text that is not a valid code)
are modelled as its precondition `Decodable`. The panic of an
out-of-bounds index (`code[i]` through `Deref`/`DerefMut`) is modelled as the
precondition `i < |radicals|` of `CodeBuffer.Get` and `CodeBuffer.Set`. The database is an input: the
joined `chars`/`codes` table as a sequence of rows, and a `Fault` that says
at which fetch, if any, the storage fails. `Display::fmt` writes into a small
`Formatter` class standing for `fmt::Formatter`; `Deref`/`DerefMut`/`Extend`
act on a `CodeBuffer` class whose field is the radical vector.

The code wraps every database error once: in `NewError::DBError`
(src/lib.rs:659-666) when the database is opened, and in
`HowToTypeError::DBError` (src/lib.rs:671-678) when it is queried. The model
keeps that error abstract as `DbError`.

## Model

| member | source | states |
|---|---|---|
| `Alphabet.Ordinal` | src/lib.rs:52-108 | each radical's position in declaration order is below 26 |
| `Alphabet.OrdinalInjective` | src/lib.rs:52-108 | distinct radicals have distinct positions |
| `Alphabet.CmpRadical` | src/lib.rs:52-53 | the derived order of radicals: `Equal` exactly for equal radicals, `Less`/`Greater` exactly by declaration position |
| `Alphabet.ToCode` | src/lib.rs:224-253 | the code of a radical is in `a`..`z` and is `a` plus the radical's position |
| `Alphabet.FromCode` | src/lib.rs:125-155 | decoding succeeds exactly for bytes `a`..`z` (and panics otherwise), and the decoded radical's code is the input byte |
| `Alphabet.FromRadical` | src/lib.rs:182-212 | decoding succeeds exactly for the 26 glyphs (and panics otherwise), and the decoded radical's glyph is the input |
| `Alphabet.FromCodeToCode` | src/lib.rs:224-253 | `from_code(to_code(r)) == r` for every radical |
| `Alphabet.ToCodeFromCode` | src/lib.rs:125-155 | `to_code(from_code(b)) == b` for every byte `a`..`z` |
| `Alphabet.FromRadicalToRadical` | src/lib.rs:269-298 | what `to_radical` means: `from_radical(to_radical(r)) == r` for every radical |
| `Alphabet.ToRadicalFromRadical` | src/lib.rs:182-212 | `to_radical(from_radical(g)) == g` for every radical glyph |
| `Alphabet.ToCodeInjective` | src/lib.rs:224-253 | the 26 codes are pairwise distinct |
| `Alphabet.ToRadicalInjective` | src/lib.rs:269-298 | `to_radical` gives the 26 radicals pairwise distinct glyphs |
| `Alphabet.ToCodeMonotone` | src/lib.rs:224-253 | `a < b` in radical order exactly when `to_code(a) < to_code(b)` |
| `Alphabet.ZGlyph` | src/lib.rs:174-180 | `Z` is shown as full-width `Ｚ`, which decodes to `Z`, and `重` fails to decode |
| `Alphabet.InvalidCodes` | src/lib.rs:153 | the bytes `0` and `A` fail to decode, `a` decodes to `A` |
| `Code.FromCodes` | src/lib.rs:347-352 | `from_codes(s)` succeeds exactly when every byte is in `a`..`z`; then it has the length of `s` and position `i` is `from_code(s[i])` |
| `Code.FromRadicals` | src/lib.rs:386-388 | `from_radicals(t)` succeeds exactly when every character is a radical glyph; then it has the length of `t` and position `i` is `from_radical(t[i])` |
| `Code.CodesText` | src/lib.rs:521-529 | the code rendering has one character per radical, position `i` being `to_code` of radical `i` |
| `Code.RadicalsText` | src/lib.rs:535-543 | the glyph rendering has one character per radical, position `i` being `to_radical` of radical `i` |
| `Code.FromCodesIffCodesText` | src/lib.rs:314-316 | `from_codes(s) == c` exactly when `c.codes()` renders as the text of `s` |
| `Code.CodesTextFromCodes` | src/lib.rs:314-316 | rendering `from_codes(s)` with `codes()` gives back `s` for any `s` over `a`..`z` |
| `Code.FromRadicalsIffRadicalsText` | src/lib.rs:315-317 | `from_radicals(t) == c` exactly when `c.radicals()` renders as `t` |
| `Code.RadicalsTextFromRadicals` | src/lib.rs:315-317 | rendering `from_radicals(t)` with `radicals()` gives back any valid glyph string `t` |
| `Code.FromCodesFromRadicals` | src/lib.rs:314-315 | `from_codes(s) == from_radicals(t)` when `t` is the glyph rendering of `from_codes(s)` |
| `Code.CodesTextAppend` | src/lib.rs:521-529 | the code rendering of a concatenation is the concatenation of the renderings |
| `Code.RadicalsTextAppend` | src/lib.rs:535-543 | the glyph rendering of a concatenation is the concatenation of the renderings |
| `Code.FromCodesAppend` | src/lib.rs:347-352 | parsing a concatenation of valid byte strings concatenates the parsed codes |
| `Code.MeowCodes` | src/lib.rs:314-316 | `from_codes(b"rtw") == [R, T, W]`, which renders as `"rtw"` |
| `Code.MeowRadicals` | src/lib.rs:315-317 | `from_radicals("口廿田") == [R, T, W]`, which renders as `"口廿田"` |
| `Code.ZRendering` | src/lib.rs:426-429 | `[Z]` renders as `"Ｚ"` under `radicals()` and `"z"` under `codes()` |
| `Code.InvalidParses` | src/lib.rs:378-384 | `from_radicals("重")` and `from_codes(b"a0")` fail |
| `Code.Cmp` | src/lib.rs:322-323 | the derived comparison of codes says `Equal` exactly for equal codes (its order is stated by `Code.CmpAntisymmetric`, `Code.CmpTransitive` and `Code.CmpLessIff`) |
| `Code.CmpAntisymmetric` | src/lib.rs:322-323 | `a < b` exactly when `b > a` |
| `Code.CmpTransitive` | src/lib.rs:322-323 | the order of codes is transitive |
| `Code.CmpLessIff` | src/lib.rs:322-323 | `a < b` exactly when `a` is a proper prefix of `b` or the first differing radical is smaller in `a` |
| `Code.ProperPrefixLess` | src/lib.rs:322-323 | a proper prefix is smaller |
| `Code.FirstDifferenceDecides` | src/lib.rs:322-323 | after a common prefix the first differing radical decides the order |
| `Code.OrderExample` | src/lib.rs:322-323 | `from_codes(b"aa") < from_codes(b"ab") < from_codes(b"b")`, these being `[A, A]`, `[A, B]` and `[B]` |
| `Code.FmtCodes` | src/lib.rs:521-529 | `Codes::fmt` appends the code rendering to what the formatter already holds |
| `Code.FmtRadicals` | src/lib.rs:535-543 | `Radicals::fmt` appends the glyph rendering to what the formatter already holds |
| `Code.CodeBuffer.Empty` | src/lib.rs:322 | the default code holds no radicals |
| `Code.CodeBuffer.FromSlice` | src/lib.rs:451-455 | a code built from a slice holds exactly its radicals |
| `Code.CodeBuffer.Get` | src/lib.rs:437-443 | reading position `i` gives radical `i` |
| `Code.CodeBuffer.Set` | src/lib.rs:445-449 | an index write changes only that position and keeps the length |
| `Code.CodeBuffer.Extend` | src/lib.rs:493-497 | `extend` appends in order, keeps the old code as a prefix, makes the code larger when something is appended, and the rendering grows by the appended rendering |
| `Lookup.VersionNumber` | src/lib.rs:629-632 | the version discriminator is 3 or 5 |
| `Lookup.VersionNumbers` | src/lib.rs:629-632 | `V3` is 3 and `V5` is 5, so the two versions select different rows |
| `Lookup.Select` | src/lib.rs:636-640 | the statement yields at most one cell per joined row; every cell comes from a row matching the character and the version, and every matching row's cell is yielded |
| `Lookup.SelectSingle` | src/lib.rs:636-640 | a one-row table yields that row's cell exactly when the row matches, and nothing otherwise |
| `Lookup.SelectOfNoMatch` | src/lib.rs:636-640 | with no matching row the statement yields nothing |
| `Lookup.SelectAppend` | src/lib.rs:636-640 | the statement's rows over a concatenated table are the concatenated rows, in table order |
| `Lookup.Cursor` | src/lib.rs:643-646 | what `rows.next()` yields: without a failure (or one past the end), exactly the selected cells in order; with a failure at fetch `k`, the first `k` cells in order followed by that failure, and nothing after it |
| `Lookup.DecodeRowsMeaning` | src/lib.rs:645-655 | what `Lookup.DecodeRows` means: the loop succeeds exactly when no fetch fails, with one code per row, in row order, each `from_codes` of the row's text; otherwise it returns the first fetch error |
| `Lookup.HowToType` | src/lib.rs:624-656 | `how_to_type` returns exactly the decoding of the rows the statement yields for the character and the version |
| `Lookup.NoFaultResult` | src/lib.rs:645-655 | without a storage failure the result has one code per selected row, each `from_codes` of that row's text |
| `Lookup.UnknownCharacter` | src/lib.rs:596-597 | a character the table does not hold gives an empty result, not an error |
| `Lookup.FaultResult` | src/lib.rs:646 | a storage failure while fetching fails the whole lookup, with no partial result |
| `Lookup.SyyiCodes` | tests/versions.rs:9-10 | the stored version-3 code `b"syyi"` parses to `[S, Y, Y, I]` |
| `Lookup.SyyiRadicals` | tests/versions.rs:10 | the expected version-3 answer `"尸卜卜戈"` parses to `[S, Y, Y, I]` |
| `Lookup.SewiCodes` | tests/versions.rs:20-21 | the stored version-5 code `b"sewi"` parses to `[S, E, W, I]` |
| `Lookup.SewiRadicals` | tests/versions.rs:21 | the expected version-5 answer `"尸水田戈"` parses to `[S, E, W, I]` |
| `Lookup.VersionsExample` | tests/versions.rs:5-24 | for `屬` the version picks the row, and the lookup answers exactly `from_radicals("尸卜卜戈")` under 3 and `from_radicals("尸水田戈")` under 5 |

## Left out

- `LibCangjieHowToType::new`, the fixed database path `DB_PATH` and `NewError`: opening the SQLite file is filesystem and foreign-library I/O.
- Preparing and running the statement (`prepare_cached`, `query`): the join of `chars` and `codes` is an input sequence of joined rows in the order SQLite returns them; a failure to prepare or run the statement ends the call like a failure at the first fetch (`FailAt(0, e)`), which the model represents instead.
- `rusqlite::Error`'s contents: kept as an abstract `DbError`.
- The float payload of `ValueRef::Real`: only the fact that it is not text matters.
- Errors of the formatter sink inside `Codes::fmt` and `Radicals::fmt`: `to_string` writes into a `String`, which never fails, so the `?` propagation is not modelled.
- `DerefMut` gives the whole slice API; only the index write (`code[i] = r`) is modelled.
- `SmallVec` inline capacity, which the code calls not part of its stable API; a plain sequence stands for it.
- The `AsRef`, `AsMut`, `Borrow`, `BorrowMut`, `IntoIterator`, `FromIterator` and `From<Vec<_>>` plumbing: views of the same sequence with no behaviour of their own.
- The `Debug` and `Hash` derives, `#[non_exhaustive]`, and the `SQLITE_OPEN_NO_MUTEX` threading mode.
- `src/main.rs` (argument parsing, exit codes, printing and joining of results) is not part of this model.
- The expected answers of the end-to-end tests depend on the database's contents; `Lookup.VersionsExample` uses them only as a sample table.
