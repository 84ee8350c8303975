# Nurse Cadet card records — a Dafny model

This project models the record-handling core of a batch job. The job reads
scanned U.S. Nurse Cadet Corps record cards (form 300A and 300A Revised),
sends each image to a recognition service, and keeps the structured records.
The model covers four parts:

- **Record and schema** (`nurse.py`). A `NurseCadet` is built from the
  service's JSON object. It has 17 optional string attributes read by key,
  plus the image path. The response schema declares the same 17 properties,
  two of them closed enumerations, and requires none.
- **Per-image outcome** (`process.py`). `extract_data` turns the service
  answer into a record or an error message. `worker_task` then keeps the
  record, logs it as a blank card, or logs the error. `log_error` appends to
  the error CSV and writes its header only when the file is new.
- **Image discovery** (`process.py`). `get_image_paths` keeps the files whose
  lower-cased name ends in `.jpg`, in walk order.
- **Output** (`save.py`). `save_to_csv` does nothing for an empty list.
  Otherwise it truncates the file and writes an 18-column header, then one
  row per record.

Modules: `Wrappers` (Option, Result), `Strings` (`str.lower`,
`str.endswith`), `OsPath` (`os.path.join`, `os.path.basename`), `Files` (a
CSV file as an exists-flag plus its rows), `Nurse`, `Process`, `Save`.

Inputs the program gets from outside become parameters:

- the directory walk is a `seq<WalkEntry>`;
- opening the image is an `ImageFile`;
- the service call is a `Reply`: it returns a response or nothing, or it
  raises, and a raise records whether the exception is a
  `json.JSONDecodeError`;
- `json.loads` followed by reading the keys is a function
  `loads: string -> Parsed`, with three results: an object; any other
  exception raised while parsing the text or reading its keys, with its
  message; or a `json.JSONDecodeError`.

Library behaviours are written out as plain definitions with no contract
of their own:

- `Process.Truthy` is Python truthiness of an optional string;
- `Process.OrElse` is `msg or default`;
- `Nurse.Get` is `dict.get`;
- `Strings.EndsWith` is `str.endswith`;
- `Strings.LowerChar` is `str.lower` on one character;
- `Save.Cell` is the CSV writer's rendering of `None` as `""`;
- `Save.DictRow` is `csv.DictWriter.writerow`, which refuses keys that are
  not columns and fills missing ones with `""`.

What they do for this program is stated by `Strings.Lower`,
`Process.IsJpgChars`, `Process.Decide`, `Process.ExtractThenDecide`,
`Nurse.FromData`, `Save.VarsFitColumns` and `Save.CsvCell`.

## Model

| member | source | states |
|---|---|---|
| `Nurse.AttributesListed` | nurse.py:5-32 | Every attribute of a record is one of the 18 listed; only `file` is not read from JSON |
| `Nurse.VarsOfLookup` | nurse.py:5-32 | In the attribute dictionary, each listed attribute sits under its own name with its own value |
| `Nurse.VarsOfKeys` | nurse.py:5-32 | The attribute dictionary holds no key except the names of the listed attributes |
| `Nurse.Vars` | nurse.py:5-32 | `vars(cadet)` has exactly the 18 attribute names as keys, each mapped to that attribute |
| `Nurse.FromData` | nurse.py:2-32 | Each of the 17 attributes equals `data.get(name)`: the value when the key is present, `None` when absent. `file` is the filename argument |
| `Nurse.FromDataIgnoresOtherKeys` | nurse.py:5-31 | A key that is not one of the 17 names has no effect on the record |
| `Nurse.FromDataOfVars` | nurse.py:2-32 | Round trip: building a record from its own attribute dictionary and path gives the same record |
| `Nurse.ResponseSchema` | nurse.py:35-65 | The schema is an `OBJECT` with 17 properties and an empty `required` list |
| `Nurse.SchemaNamesAreRecordKeys` | nurse.py:39-63 | The schema's property names are the 17 keys the constructor reads, in the same order |
| `Nurse.SchemaPropertyTypes` | nurse.py:40-62 | Every property is `STRING`. `card_type` allows only 300A / 300A Revised / null, and `termination_type` only Graduation / Withdrawal / null. The other properties are open |
| `Nurse.ConformingRecordEnums` | nurse.py:40-59 | A record built from an answer that follows the schema has, in each closed attribute, nothing or one of that attribute's allowed values |
| `Save.FieldnamesAreAttributeNames` | save.py:14-33 | The 18 columns are the record's attribute names, in the record's assignment order |
| `Save.VarsFitColumns` | save.py:39-41 | `writerow(vars(cadet))` never meets an unknown key, and it writes the record's row |
| `Save.CsvTable` | save.py:35-41 | The output has `len(cadets) + 1` rows: the fixed header first, then one row per record in input order |
| `Save.CsvCell` | save.py:39-41 | Row i + 1, column j holds attribute `fieldnames[j]` of record i |
| `Save.SaveToCsv` | save.py:8-43 | An empty list leaves the file as it was. Otherwise the file exists afterwards and holds exactly the header plus the record rows; earlier contents are discarded |
| `Process.ExtractError.Message` | process.py:91-100 | Every extraction error message is longer than "Unknown Error"; a system error's message is "System Error: " followed by the exception's text |
| `Process.ExtractData` | process.py:84-100 | Exactly one of (record, error). Errors are sorted by exception class. A `json.JSONDecodeError`, whether the service call or `json.loads` raises it, gives the parse error. Any other exception gives a system error carrying its text: one from `open`, from the service call, or from parsing or reading keys. No response or no text gives the empty-response error. A JSON object gives the record built for the full path |
| `Process.IsBlank` | process.py:68-74 | The blank-card test: first name, serial number and last name all falsy, or all three the text `"null"`. Its meaning is stated by the two lemmas below |
| `Process.BlankMeansNoIdentityText` | process.py:68-74 | A blank card has no real text in first name, serial number or last name; real text in any of them means not blank |
| `Process.MixedSentinelsNotBlank` | process.py:68-74 | When the identity fields mix a falsy value with the `"null"` text, the card is not blank |
| `Process.Decide` | process.py:64-81 | Kept exactly when there is a record and it is not blank, and it is kept unchanged. A blank record is logged with "Blank Card / No data found". No record logs the message when it is truthy, and "Unknown Error" when it is None or empty. Logs are keyed by the basename |
| `Process.ExtractThenDecide` | process.py:64-100 | For a real extraction: a kept record is not blank and its `file` is the full path; a log row uses the basename; the reason is never "Unknown Error" |
| `Process.LogError` | process.py:131-138 | The header `["filename","reason"]` is written only if the file did not exist, then exactly one `[filename, reason]` row; earlier rows are unchanged |
| `Process.WorkerTask` | process.py:64-81 | Returns the record and leaves the log unchanged when kept; otherwise returns None and appends the one logged row, with the header only for a new file |
| `Process.IsJpg` | process.py:107 | The image test `file.lower().endswith(".jpg")`. Its character-level meaning is stated by `IsJpgChars` |
| `Process.IsJpgChars` | process.py:107 | A name counts as an image exactly when it ends in a dot followed by j, p, g in either case |
| `Process.UpperCaseJpgKept` | process.py:107 | `A.JPG` counts as an image |
| `Process.JpegNotKept` | process.py:107 | `a.jpeg` does not count as an image |
| `Process.JpgPaths` | process.py:106-109 | `get_image_paths` for one directory, as a function: the joined paths of its images in listing order. Its properties are the lemmas below |
| `Process.ImagePaths` | process.py:103-110 | `get_image_paths` for a whole walk, as a function: each directory's image paths in walk order. `GetImagePaths` is proved equal to it |
| `Process.JpgPathsAppend` | process.py:106-109 | Within one directory, concatenating listings concatenates results, so listing order is kept |
| `Process.ImagePathsAppend` | process.py:105-109 | Across directories, concatenating walks concatenates results, so walk order is kept |
| `Process.JpgPathsSingle` | process.py:107-109 | One file yields its joined path exactly when it is an image |
| `Process.ImagePathKept` | process.py:105-109 | Every image file of the walk appears in the result, joined to its directory |
| `Process.JpgPathOrigin` | process.py:106-109 | Every path found in one directory is an image file of that directory joined to its root |
| `Process.ImagePathOrigin` | process.py:105-109 | Every path in the result is an image file of the walk joined to its directory |
| `Process.GetImagePaths` | process.py:103-110 | The nested loops return exactly the walk's image paths, in walk order |
| `Process.LoggedNameIsListedName` | process.py:65 | The basename a found image is logged under is the image file name the walk listed |
| `OsPath.Join` | process.py:108 | The joined path ends with the file name and, unless the name is absolute, starts with the directory |
| `OsPath.Basename` | process.py:65 | The basename is the longest suffix of the path that holds no separator |
| `OsPath.BasenameOfJoin` | process.py:65 | The basename of `join(root, name)` is `name` for any name without a separator |
| `Strings.Lower` | process.py:107 | Lower-casing keeps the length and lower-cases each character on its own |
| `Files.CsvFile.OpenAppend` | process.py:134 | Opening for append creates a missing file and keeps an existing file's rows |
| `Files.CsvFile.OpenWrite` | save.py:35 | Opening for write creates or truncates the file |
| `Files.CsvFile.WriteRow` | save.py:37-41 | Writing a row appends exactly that row |

## Left out

- The thread pool in `process` (process.py:16-61) is not modelled: 200 threads, a shared queue, a lock, a progress bar, and wall-clock pacing with `time.sleep`. Its per-path behaviour is `WorkerTask`.
- `Process.LogError`: its header-once promise holds for one call on its own. The workers call `log_error` outside `results_lock` (process.py:40-44, 53), so its check-then-append (process.py:133-137) races: two workers that both fail before the error log exists can each find it missing and each write the header. The model, being sequential, does not capture this.
- The recognition call `llm` (process.py:113-128) and the prompt text (process.py:141-172) are not modelled. The call's effect is the `Reply` parameter.
- `json.loads` (process.py:94) is the `loads` parameter. JSON values other than strings and null, such as numbers inside an object, are not modelled; a record's attributes are `Option<string>`.
- Reading the image bytes (process.py:86-87) is not modelled. Only whether opening raises is kept, as `ImageFile`.
- File and directory I/O is not modelled: `os.walk`, `open`, `os.path.isfile` and the CSV writer's quoting and encoding. Files are rows in memory and the walk is a given listing. The `dirs` part of each walk step is not used.
- The error log path argument (process.py:131) is not modelled. The `CsvFile` object passed in stands for it.
- The console messages printed by `save_to_csv` (save.py:10, 43) are not modelled.
- `save_data` (save.py:4-5) is not modelled: it calls `save_to_csv` with one of its two required arguments, so it cannot run as written.
- `main.py` and `constants.py` are not part of this model. They hold wiring and constants that none of the modelled code reads.
- `Strings.Lower`: lower-cases ASCII letters only. Python's `str.lower` also maps other Unicode letters, some of them to two characters; the model does not capture those mappings.
- `OsPath.Join`: joins with `/`, as POSIX `os.path.join` does. The program's paths are Windows paths, where `ntpath.join` inserts `\`; the `file` column of a kept record then differs from the model's joined path in that character.
- `OsPath.Basename`: only `/` is a separator, as POSIX `os.path` does. On Windows `\` and drive letters also count.
