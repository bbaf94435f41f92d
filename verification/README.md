# get_in_args: positional configuration loader (Dafny model)

This project models `get_in_args` from the Moirai Land Data System. It fills
the caller's `args_struct` from a plain-text input file. The file lists
54 configuration values, one per line, in a fixed order. Blank lines and lines
whose first non-blank character is `#` are ignored. A value line may end with
a `#` comment. The k-th value line (a "record") goes to slot k:

- slots 1-5 are integers converted with `atoi`: `diagnostics`,
  `out_year_prod_ha_lr`, `in_year_sage_crops`, `out_year_usd`,
  `in_year_lr_usd`;
- slots 6-54 (`inpath` … `lt_map_fname`) are strings copied as they are;
- records past the 54th are counted but not stored.

The function returns `OK` exactly when the file holds 54 records. Otherwise
it returns `ERROR_FILE`. It also returns `ERROR_FILE`, writing nothing, when
the file cannot be opened.

Files:

- `cstring.dfy` (module `CString`): the C string helpers the loader relies on.
  These are `rm_whitesp` (taken as "remove every `isspace` character"),
  `strcspn` with the `strncpy` that follows it, and `atoi` as section 7.22.1.2
  of ISO C11 defines it.
- `args_struct.dfy` (module `ArgsStruct`): the schema constants
  (`NUM_IN_ARGS` = 54, five integer slots), the member name of every slot
  (`IntSlotNames`, `StrSlotNames`), and the class `InArgs`. The class is the
  caller's record: `ints` holds slots 1-5 and `strs` holds slots 6-54.
- `get_in_args.dfy` (module `Loader`): which lines are records and what value
  each carries (`IsRecordLine`, `FieldValue`, `Records`), and the record after
  loading (`FillInts`, `FillStrs`). It also holds the lemmas about these and
  the imperative `GetInArgs`. `GetInArgs` scans the lines in a `while` loop,
  counts records and writes each into the record in place through
  `SetInputVariable` (the `switch`).

The file is given to `GetInArgs` as `Option<seq<string>>`: `None` when
`fopen` fails, otherwise the file's lines in order.

Two consequences of the code are worth stating:

- The code has one error code, `ERROR_FILE`, both when the file does not open
  (src/get_in_args.c:62) and when the record count is wrong
  (src/get_in_args.c:253).
- The code writes each value into the caller's record as soon as it reads it.
  A load that ends in `ERROR_FILE` because of the count can therefore leave
  the record partly or wholly overwritten. The postcondition of `GetInArgs`
  states exactly which slots were overwritten.

## Model

| member | source | states |
|---|---|---|
| `CString.RmWhitesp` | src/get_in_args.c:68 | the stripped line holds no white-space character and is no longer than the raw line |
| `CString.RmWhitespKeeps` | src/get_in_args.c:68 | every character that is not white space occurs in the stripped line as often as in the raw line |
| `CString.RmWhitespOfNoSpace` | src/get_in_args.c:68 | a line without white space is left unchanged, order included |
| `CString.RmWhitespIdempotent` | src/get_in_args.c:68 | stripping twice equals stripping once |
| `CString.RmWhitespAppend` | src/get_in_args.c:68 | stripping a concatenation equals concatenating the stripped pieces |
| `CString.RmWhitespOfAllSpace` | src/get_in_args.c:68 | a run of white space strips to the empty string |
| `CString.Strcspn` | src/get_in_args.c:74 | the length of the longest prefix free of the marker; the marker stands right after it when the prefix is shorter than the string |
| `CString.StripComment` | src/get_in_args.c:74-75 | the value is a prefix of the stripped line, holds no `#`, is followed by `#` when shorter than the line, and is the whole line when the line has no `#` |
| `CString.StripCommentOfComment` | src/get_in_args.c:74-75 | a value followed by `#` and any text yields exactly that value |
| `CString.RmWhitespStartsAtFirstNonSpace` | src/get_in_args.c:68-71 | the stripped line starts with the raw line's first non-blank character, and is empty when there is none |
| `CString.Atoi` | src/get_in_args.c:78-91 | `atoi` gives 0 when no digit follows the leading white space and the optional sign; only a leading `-` gives a negative result (with `AtoiOfDecimal` below for the value read) |
| `CString.AtoiOfDigits` | src/get_in_args.c:78-91 | `atoi` of a run of digits followed by a non-digit is the value of those digits |
| `CString.AtoiOfSignedDigits` | src/get_in_args.c:78-91 | `atoi` of `-` or `+` then digits is the digits' value, negated for `-` |
| `CString.AtoiOfDecimal` | src/get_in_args.c:78-91 | `atoi` reads back the decimal numeral of every number, unsigned, with `+`, or negated with `-`, whatever non-digit text follows |
| `ArgsStruct.SlotOf` | src/get_in_args.c:77-243 | slot k holds an integer exactly when k is 1-5 (a string for 6-54) |
| `ArgsStruct.SlotNamesFitSchema` | src/get_in_args.c:77-243 | the name tables hold 5 integer and 49 string members, slot k is named by the k-th entry, from `diagnostics` through `in_year_lr_usd` to `lt_map_fname` |
| `ArgsStruct.InArgs.constructor` | src/get_in_args.c:47 | the caller's record with the given earlier contents, 5 integer and 49 string slots |
| `Loader.IsRecordLine` | src/get_in_args.c:71 | a line is a record exactly when it has a non-blank character and the first one is not `#` (see also `BlankLineIgnored`, `CommentLineIgnored`) |
| `Loader.FieldValue` | src/get_in_args.c:74-75 | the value is a prefix of the stripped line, free of white space and `#`, ends only at a `#` or the end of the line, and is non-empty for a record line (see also `InlineCommentStripped`) |
| `Loader.Convert` | src/get_in_args.c:77-243 | the stored value has its slot's kind: an integer slot gets `atoi` of the value, a string slot an exact copy (per slot in `FilledSlots`) |
| `Loader.Records` | src/get_in_args.c:67-75 | there are at most as many records as lines |
| `Loader.RecordValuesWellFormed` | src/get_in_args.c:67-75 | every record value is non-empty and holds neither `#` nor white space |
| `Loader.RecordsAppend` | src/get_in_args.c:67-72 | the records of a file are those of its first part followed by those of the rest |
| `Loader.RecordsSnoc` | src/get_in_args.c:71-72 | reading one more line adds its value when it is a record line, and nothing otherwise |
| `Loader.SkippedLineIgnored` | src/get_in_args.c:71-72 | inserting a blank or comment line anywhere leaves every record, and so the count, unchanged |
| `Loader.BlankLineIgnored` | src/get_in_args.c:71 | a line of white space only is not a record |
| `Loader.CommentLineIgnored` | src/get_in_args.c:71 | a line whose first non-blank character is `#` is not a record, whatever follows |
| `Loader.InlineCommentStripped` | src/get_in_args.c:74-75 | a value between blanks followed by a `#` comment is a record whose value is exactly that value |
| `Loader.RecordAtRank` | src/get_in_args.c:72 | a record line preceded by r records is record r+1, and its value is the (r+1)-th record value |
| `Loader.FilledSlots` | src/get_in_args.c:77-243 | after loading, slot k holds the k-th record converted for its kind when there are at least k records, and its earlier content otherwise |
| `Loader.KthRecordLineFillsSlotK` | src/get_in_args.c:72-243 | the line that is the k-th record (k at most 54) fills slot k with its value, whatever the earlier content |
| `Loader.FillSnoc` | src/get_in_args.c:77-243 | one more record changes its own slot only: slot `count` gets `atoi` of it (1-5) or a copy (6-54), and past slot 54 nothing changes |
| `Loader.FillIgnoresExtra` | src/get_in_args.c:241-242 | values after the 54th are stored nowhere |
| `Loader.TrailingLinesIgnored` | src/get_in_args.c:241-242 | once 54 records are read, further lines change no slot |
| `Loader.CompleteLoadIgnoresPrior` | src/get_in_args.c:77-243 | with 54 or more records every slot is overwritten, so the result does not depend on the earlier contents |
| `Loader.ReloadIdempotent` | src/get_in_args.c:77-243 | storing the same records twice gives the same record as storing them once |
| `Loader.SetInputVariable` | src/get_in_args.c:77-243 | record number `count` is stored in slot `count` (`atoi` for 1-5, a copy for 6-54); every other slot, and every slot when `count` is above 54, is unchanged |
| `Loader.GetInArgs` | src/get_in_args.c:47-257 | when the file does not open, the result is `ErrorFile` and nothing is written; otherwise slot k gets the k-th record (converted) or keeps its content when there are fewer than k records; the result is `Ok` exactly when the file opened and holds 54 records |

## Left out

- File I/O: `fopen`, `fscanf` and `fclose` are replaced by the list of lines, or `None` for a file that does not open.
- The `fscanf(fpin, "%[^\n]\n", …)` reading quirks. After each line it skips following white space and empty lines, which cannot change the records because blank lines are ignored anyway. It also stalls when the file starts with an empty line.
- The `fprintf` messages to standard error; they are diagnostics only.
- `rm_whitesp` is defined in a file that is not part of this model. It is modelled as removing every character `isspace` accepts in the "C" locale.
- `MAXRECSIZE`: the fixed buffers and any overflow or truncation in `fscanf`, `strncpy` and `strcpy`. Lines and values are unbounded strings.
- Embedded NUL characters. C strings end at the first NUL; the model's strings may contain `'\0'` as an ordinary character.
- CString.Atoi: the result is an unbounded integer. A value outside the range of C `int` makes `atoi` undefined in C, and that case is not modelled.
- Loader.GetInArgs: the record counter is an unbounded integer. C's `int count` would overflow only after more than 2^31-1 records.
- The contents of `moirai.h` other than `NUM_IN_ARGS` = 54, `OK` and `ERROR_FILE` (modelled as the two constructors of `Status`).
