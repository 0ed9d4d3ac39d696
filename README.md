# tt2ad: converting Toontrack MIDI packages for Addictive Drums 2, in Dafny

`convert_toontrack_midi.py` copies the MIDI files of an installed Toontrack
package into a folder that Addictive Drums 2 can read. The vendor encodes each
groove's metadata in its path. The script decodes each path, renames the file
`<package> <group> <groove> <signature>_V_<type> <number>_C_<category>[_F_].mid`
and copies it into `ToonTrack <Package>`. Finally it copies an optional
`.AD2Map` MIDI-mapping file into that folder.

This project models that script in four modules:

- `Results` (`results.dfy`) holds the `Result` and `Option` datatypes. An
  exception raised while decoding is an `Err` value; an exception raised on
  the copying side (`FileNotFound`, `SameFile`, `BadPackageArgument`) is a
  `Some(...)` failure of the run.
- `PyStr` (`pystr.dfy`) holds the Python string built-ins the script relies
  on: `split` on one character, `replace`, ASCII `str.title()`, and
  `str.format` with automatically numbered `{}` fields. Each comes with the
  laws the proofs use, for example `Join(Split(s)) == s` and
  `Title(Title(s)) == Title(s)`.
- `MidiNames` (`midinames.dfy`) holds the pure functions:
  - the path decoder `convert_path`, with `convert_package_name` and
    `extract_number`;
  - the type normaliser `convert_type`;
  - the name encoders `file_name` and `make_folder_name`, and the mapping
    file's name.

  Decoding raises exactly what the Python raises, in the same order:
  - `IndexError` for a missing `@` or a missing path component;
  - `ValueError` when unpacking a split into two names meets another number
    of pieces;
  - `TypeError` when `re.search` finds no digit and its `None` is indexed.
- `CopyPlan` (`copyplan.dfy`) holds the copying half:
  - a `FileSystem` class with folders and files, and its `MakeDir` and
    `CopyFile` (`shutil.copyfile`, with its missing-source, missing-folder
    and same-file errors);
  - the methods `CopyMidi` (`copy_file`), `CopyOptionalMapping` and
    `ConvertPackage` (the main block and its loop). Each is proved against a
    specification function on file-system snapshots.

  The lemmas then state the copy plan:
  - the loop copies the decoded files in discovery order, each to the folder
    of its own package;
  - a later copy to the same name wins;
  - the run stops at the first path that does not decode, having made the
    copies before it, because `map` is lazy;
  - the vendor's files are never written, and neither are the mapping-file
    candidates, which have no backslash, as `glob` returns them;
  - the mapping file comes from the first candidate only, never lands on a
    MIDI destination, and ends up with the candidate's original bytes;
  - a second run of the whole script, on the result of the first, changes
    nothing.

Two consequences of the code are worth stating:
- For `000353@UK_DANCE\S001@UK DANCE_4#4\100-A@Grooves\Variation_01.mid`
  and category `Electronic`, the template at lines 97 and 100 gives
  `UK DANCE A Uk Dance 4#4_V_Groove 01_C_Electronic.mid`. That is the layout
  of the usage comment at line 48: the decoded package first, not title-cased,
  then the group, the title-cased groove, a space and the signature.
- The script always splits on a backslash (line 84), so the model does too,
  and it joins destination paths with a backslash. A path written with `/`
  separators is a single component and raises IndexError, at line 86 at the
  latest, in the script and in the model alike.

## Model

| member | source | states |
|---|---|---|
| MidiNames.ConvertPackageName | convert_toontrack_midi.py:67-68 | succeeds exactly when the name has an `@`, otherwise raises IndexError; the result contains neither `_` nor `@` |
| MidiNames.ConvertPackageNameOf | convert_toontrack_midi.py:67-68 | for `id@name` or `id@name@...` the result is `name` with every `_` replaced by a space |
| MidiNames.ConvertPackageNameChars | convert_toontrack_midi.py:67-68 | every character of the result is a character of the input, or a space |
| MidiNames.ExtractNumber | convert_toontrack_midi.py:70-71 | succeeds exactly when the input has a digit, otherwise raises TypeError; the result is a non-empty run of digits |
| MidiNames.DigitRun | convert_toontrack_midi.py:71 | `\d+` is greedy: the run is a prefix of digits, followed by the end or by a non-digit |
| MidiNames.ExtractNumberAt | convert_toontrack_midi.py:70-71 | the number occurs in the input at a position with no digit before it, followed by the end or by a non-digit |
| MidiNames.ExtractNumberSkip | convert_toontrack_midi.py:71 | a prefix free of digits does not change the number found |
| MidiNames.VariationExample | convert_toontrack_midi.py:71 | `Variation_01.mid` yields `01` |
| MidiNames.ConvertType | convert_toontrack_midi.py:76-81 | the result is never `Fills`, `Breaks` or `Grooves` |
| MidiNames.ConvertTypeTable | convert_toontrack_midi.py:76-81 | a type whose title case is Fills, Breaks or Grooves becomes Fill, Break or Groove; any other type becomes its title case; every result is title-cased |
| MidiNames.ConvertTypeIdempotent | convert_toontrack_midi.py:76-81 | normalising twice is normalising once |
| MidiNames.ConvertPath | convert_toontrack_midi.py:83-91 | a decoded descriptor carries the input path unchanged |
| MidiNames.ConvertPathSucceeds | convert_toontrack_midi.py:83-91 | decoding succeeds exactly when all hold: there are at least four backslash components; component 0 has an `@`; the text between component 1's first and second `@` has exactly one `_`; component 2 has exactly one `-` and its second part exactly one `@`; component 3 has a digit |
| MidiNames.NoBackslashRaises | convert_toontrack_midi.py:84-86 | a path without a backslash, such as one with `/` separators, raises IndexError |
| MidiNames.DecodeRoundTrip | convert_toontrack_midi.py:83-91 | a path `id@P\x@G_S\B-R@T\leaf...` built from delimiter-free fields decodes to bpm B, package P with spaces for `_`, groove title(G), signature S, group R, type convert_type(T) and the first digit run of leaf |
| MidiNames.ConvertPathOutput | convert_toontrack_midi.py:84-85 | every decoded descriptor has an `@` in its path's first component, and a package with neither `@` nor backslash |
| MidiNames.DecodedPackageChars | convert_toontrack_midi.py:84-85 | the decoded package contains no backslash and no `@` |
| MidiNames.FileName | convert_toontrack_midi.py:93-100 | `file_name`; its behaviour is stated by FileNameFormatted, FileNameStart, FileNameEnd and FillMarker |
| MidiNames.FileNameFormatted | convert_toontrack_midi.py:93-100 | the name is the template `{} {} {} {}_V_{} {}{}{}.mid`, which has eight fields, filled with package, group, groove, signature, type, number, `_C_` + category and the fill marker, in that order |
| MidiNames.FileNameTemplate | convert_toontrack_midi.py:97 | the template consists of the literal runs `""`, `" "`, `" "`, `" "`, `"_V_"`, `" "`, `""`, `""` and `".mid"`, with one field between each two runs |
| MidiNames.FileNameStart | convert_toontrack_midi.py:98-100 | every file name starts with the package, unchanged, and a space |
| MidiNames.FileNameEnd | convert_toontrack_midi.py:95-100 | every file name ends in `.mid`; a Fill ends in `_C_<category>_F_.mid`, anything else in `_C_<category>.mid` |
| MidiNames.FillMarker | convert_toontrack_midi.py:94-95 | when the category does not itself end in `_F_`, a name ends in `_F_.mid` exactly when the type is Fill |
| MidiNames.MakeFolderName | convert_toontrack_midi.py:106-107 | `make_folder_name`; its behaviour is stated by MakeFolderNameFormatted and UsageFolderExample |
| MidiNames.MakeFolderNameFormatted | convert_toontrack_midi.py:106-107 | the folder name is the template `ToonTrack {}` filled with the title case of the package |
| MidiNames.MappingFileName | convert_toontrack_midi.py:128 | the mapping file's name; its behaviour is stated by MappingFileNameFormatted |
| MidiNames.MappingFileNameFormatted | convert_toontrack_midi.py:128 | the mapping file's name is the template `{}.AD2Map` filled with the folder name |
| MidiNames.UsageFolderExample | convert_toontrack_midi.py:44-47 | package `UK DANCE` goes to folder `ToonTrack Uk Dance` |
| MidiNames.UsageTitleExample | convert_toontrack_midi.py:47 | the title case of `UK DANCE` is `Uk Dance` |
| PyStr.Split | convert_toontrack_midi.py:84 | `split` on a character yields one piece more than there are separators, and no piece contains the separator |
| PyStr.JoinSplit | convert_toontrack_midi.py:84 | joining the pieces with the separator gives back the string |
| PyStr.SplitJoin | convert_toontrack_midi.py:84 | splitting separator-free pieces joined by the separator gives back the pieces |
| PyStr.Replace | convert_toontrack_midi.py:68 | `replace` on one character changes exactly the occurrences of that character and keeps the length |
| PyStr.Title | convert_toontrack_midi.py:77 | ASCII `str.title()`; its behaviour is stated by TitleAt, TitleIdempotent and TitleKeepsNonLetter |
| PyStr.TitleAt | convert_toontrack_midi.py:77 | `title` upper-cases a letter at the start or after a non-letter, lower-cases a letter after a letter, and keeps everything else |
| PyStr.TitleIdempotent | convert_toontrack_midi.py:77 | title-casing twice is title-casing once |
| PyStr.TitleKeepsNonLetter | convert_toontrack_midi.py:107 | `title` neither adds nor removes a non-letter such as `@` or a backslash |
| PyStr.Format | convert_toontrack_midi.py:100 | `str.format` with `{}` fields; its behaviour is stated by FormatRender |
| PyStr.FormatRender | convert_toontrack_midi.py:100 | a template of runs free of `{` and `}` with `{}` between them has one field per argument, and `format` puts the arguments between the runs in order |
| CopyPlan.PathJoin | convert_toontrack_midi.py:118 | `path / name` with the backslash separator; JoinHasBackslash and FirstComponent state what the proofs use of it |
| CopyPlan.CopyFileSpec | convert_toontrack_midi.py:119 | `shutil.copyfile` on a snapshot; FileSystem.CopyFile is proved against it |
| CopyPlan.CopyMidiSpec | convert_toontrack_midi.py:109-119 | `copy_file` on a snapshot; CopyMidi is proved against it, and CopyMidiPlanned states it as one more entry of the copy plan |
| CopyPlan.CopyAllSpec | convert_toontrack_midi.py:139-140 | the loop on a snapshot; CopyAllPlan gives its closed form, CopyAllStops its stop at the first exception |
| CopyPlan.MappingSpec | convert_toontrack_midi.py:121-130 | `copy_optional_mapping_file` on a snapshot; MappingFirstCandidate states what it does |
| CopyPlan.ConvertSpec | convert_toontrack_midi.py:132-142 | the main block on a snapshot; ConvertPackage is proved against it, and ConvertKeepsSources, ConvertKeepsCandidates, ConvertDeliversPlan, ConvertDeliversMapping and ConvertRerunChangesNothing state what it does |
| CopyPlan.FileSystem.MakeDir | convert_toontrack_midi.py:116-117 | `mkdir(exist_ok=True)` adds the folder, whether or not it existed, and changes no file |
| CopyPlan.FileSystem.CopyFile | convert_toontrack_midi.py:119 | `copyfile` raises SameFileError for a copy of an existing file onto itself, then FileNotFoundError for a missing source, then for a missing destination folder; otherwise it gives the destination the source's bytes and changes nothing else |
| CopyPlan.CopyMidi | convert_toontrack_midi.py:109-119 | creates the folder of the file's own package, then copies the file there under its converted name |
| CopyPlan.CopyOptionalMapping | convert_toontrack_midi.py:121-130 | with no candidate nothing happens; when there is a candidate, an argument without `@` raises IndexError before anything is copied; otherwise the first candidate is copied into the package folder, which is not created here |
| CopyPlan.ConvertPackage | convert_toontrack_midi.py:132-142 | the loop and the mapping step carry out the specification fold: one copy per discovered path in discovery order, stopping at the first exception |
| CopyPlan.CopyAllStops | convert_toontrack_midi.py:139-140 | once the loop has raised, later paths change nothing |
| CopyPlan.FirstError | convert_toontrack_midi.py:104 | the first path that does not decode: every earlier path decodes |
| CopyPlan.Plan | convert_toontrack_midi.py:139-140 | every source in the copy plan is one of the decoded paths |
| CopyPlan.CopyAllPlan | convert_toontrack_midi.py:102-140 | the paths before the first failing one are all decoded; the loop creates their folders and carries out their copy plan; none of those copies raises; the run stops with that path's error, if there is one |
| CopyPlan.PlanDestinations | convert_toontrack_midi.py:118-119 | the destinations of the plan are exactly the destinations of the copies |
| CopyPlan.LastCopyWins | convert_toontrack_midi.py:139-140 | a destination ends up with the source of the last copy made to it |
| CopyPlan.TargetIsNotASource | convert_toontrack_midi.py:114-118 | a MIDI destination lies in a `ToonTrack ...` folder without `@`, so it is never a vendor path |
| CopyPlan.SourceNotPlanned | convert_toontrack_midi.py:34 | no vendor path is a destination of the plan |
| CopyPlan.SourcesUnchanged | convert_toontrack_midi.py:139-140 | the loop deletes no file and leaves every vendor file's bytes as they were |
| CopyPlan.RerunChangesNothing | convert_toontrack_midi.py:139-140 | running the loop alone again on its own result makes the same copies, stops at the same error and leaves the result as it was |
| CopyPlan.ConvertRerunChangesNothing | convert_toontrack_midi.py:132-142 | running the whole script again on the result of a run, mapping step included, gives back that result, when the mapping candidates have no backslash |
| CopyPlan.DecodeAllSound | convert_toontrack_midi.py:103-104 | discovered paths that exist yield decoded descriptors whose sources exist |
| CopyPlan.MappingFirstCandidate | convert_toontrack_midi.py:121-130 | the mapping file is copied only when there is a candidate, and only the first candidate matters; it lands at `D\D.AD2Map` for `D` = `make_folder_name(convert_package_name(package))`; a failed copy changes nothing |
| CopyPlan.MappingTarget | convert_toontrack_midi.py:126-129 | where the mapping file goes; MappingTargetIsNotASource and MappingTargetIsNotAMidiTarget state where it never goes |
| CopyPlan.MappingTargetIsNotASource | convert_toontrack_midi.py:126-129 | the mapping destination has no `@`, so it is never a vendor path |
| CopyPlan.MappingTargetIsNotAMidiTarget | convert_toontrack_midi.py:126-129 | the mapping destination ends in `.AD2Map` and a MIDI destination in `.mid`, so they never collide |
| CopyPlan.ConvertKeepsSources | convert_toontrack_midi.py:132-142 | the whole run, mapping step included, leaves every vendor file's bytes as they were |
| CopyPlan.ConvertKeepsCandidates | convert_toontrack_midi.py:122-130 | when the mapping candidates have no backslash, as `glob("*.AD2Map")` returns them, the whole run leaves every candidate's bytes as they were |
| CopyPlan.LoopKeepsPlainNames | convert_toontrack_midi.py:139-140 | the loop neither creates, removes nor changes a file whose path has no backslash |
| CopyPlan.ConvertDeliversPlan | convert_toontrack_midi.py:132-142 | at the end of the whole run, every destination of the copy plan holds the bytes its source had before the run |
| CopyPlan.ConvertDeliversMapping | convert_toontrack_midi.py:121-130 | after a run that raised nothing, with a backslash-free first candidate, the mapping target holds the bytes that candidate had before the run |

## Left out

- `glob.glob` discovery (lines 103 and 122) is not modelled. The discovered MIDI paths and the mapping-file candidates are inputs, in the order `glob` returns them. The lemmas about the candidates assume what `glob("*.AD2Map")` guarantees: names in the current folder, without a backslash. The lemmas about the MIDI copies assume what the recursive `glob` at line 103 guarantees: every discovered path is an existing file (`forall i :: paths[i] in d.files`).
- `print` diagnostics (lines 111 and 123) are left out. So is reading `sys.argv` (lines 135 and 137): the package and the category are parameters of `ConvertPackage`.
- Unicode is not modelled. `str.title()` is modelled for ASCII letters only, and `\d` for ASCII digits only. Every other character counts as a non-letter or a non-digit.
- `PyStr.Format` models only the automatically numbered `{}` fields the script's templates use. Explicit indices, names, escaped braces and format specifications are not modelled, nor is the ValueError Python raises for a lone `}`; `PyStr.FormatRender` speaks only of runs without braces.
- `CopyPlan.FileSystem.MakeDir` always succeeds. The model leaves out the errors a real `mkdir` can raise (a missing parent, a file with that name, permissions) and the nesting of folders.
- `CopyPlan.FileSystem.CopyFile` treats paths as plain strings. It does not model characters that the file system refuses in a name, case-insensitive file names or path normalisation. In practice: the category is free text from line 137, such as `Hip-Hop/Rap`; on Windows a `/` or `\` in it makes `path / name` point into a sub-folder that does not exist, so `copyfile` raises FileNotFoundError, while `CopyFileSpec` succeeds on the same input. So `CopyPlan.CopyAllPlan`'s "none of those copies raises" holds of the script only for categories without a separator.
- File contents are an abstract byte sequence that is only ever copied.
- An exception ends the run with the state reached so far. The Python traceback and the exit status are not modelled.
