# Dafny model of the password-manager notebook core

The notebook (`password_manager/password_manager.py` and
`password_manager/password_utils.py`) is a command-line credential book that keeps a
list of dict records in a JSON file. This project models the logic under its
prompts and file I/O:

- **the record fingerprint**: `generate_hash` and its copy `calculate_hash`. Each
  joins eight fields (`id, username, email, phone, password, reg_date, timestamp,
  note`) with no separator and digests the result. A missing field counts as `""`.
  SHA-256 is a parameter `sha: string -> string` that the model knows nothing about;
  every fact is proved for every such function.
- **password policies and generation**: the `PASSWORD_OPTIONS` table and the fallback
  to option 3 in `prompt_password`, and the `if/elif` dispatch of `generate_password`,
  which raises `ValueError`. Randomness is a stream of draw indices. The i-th
  character is `alphabet[draws[i]]`, and each index is below the alphabet's size.
- **record creation in `add_entry`**: the zero-padded id `str(len(data)+1).zfill(3)`,
  the stripped answers, the `reg_date` default, the hash taken before `"hash"` is set,
  and the append to the in-memory list. The list lives in `Notebook.data`, a `seq`
  field that the `AddEntry` method extends. The clock (`today`, `now`) and the prompt
  answers (raw input lines) are parameters.

Records are `map<string, string>` (a dict whose values are all text). Python's
`str.strip()` (with the full `str.isspace` character set), `str(n)` and `str.zfill` are
modelled in `pystr.dfy`. `random.choices` / `random.choice` draws are in `sampling.dfy`.
`dict.get(key, '')` and the field join are in `records.dfy`. `cross_check.dfy` compares
the two source files.

The two files differ in two ways, and each is modelled as written.
`PasswordManager.MixedAlphabet` ends in `!@#$%^&*()` and
`PasswordUtils.MixedAlphabet` ends in `!@#$%^&*`. An invalid answer in
`prompt_password` falls back to option 3 with a warning, while `generate_password`
raises.

## Model

| member | source | states |
|---|---|---|
| `PasswordManager.SelectPolicy` | password_manager/password_manager.py:20-27 | `'1'` → 6 digits, `'2'` → 8 digits, `'4'` → 12 mixed; every other answer, `'3'` included, → 8 mixed; the warning flag is set exactly when the answer is not a table key |
| `PasswordManager.PromptPassword` | password_manager/password_manager.py:55-60 | on the stripped answer: the password conforms (length and alphabet) to the chosen option's policy for every draw stream; an invalid answer warns and yields a mixed-8 password |
| `PasswordManager.PromptPasswordCharacters` | password_manager/password_manager.py:21-26 | options 1 and 2 give only decimal digits; options 3, 4 and the fallback give only ASCII letters, digits or `!@#$%^&*()` |
| `PasswordManager.MixedAlphabetMembers` | password_manager/password_manager.py:24 | a character is in the options-3/4 alphabet iff it is an ASCII letter, a digit or one of `!@#$%^&*()` |
| `PasswordManager.Preimage` | password_manager/password_manager.py:46-47 | the hashed text is exactly id ++ username ++ email ++ phone ++ password ++ reg_date ++ timestamp ++ note, a missing key giving `""` |
| `PasswordManager.GenerateHash` | password_manager/password_manager.py:45-48 | `generate_hash` is `sha` of that eight-field concatenation |
| `PasswordManager.HashFieldSetIsHashFields` | password_manager/password_manager.py:46 | the key set of a fresh record is exactly the set of names in the hashed field list |
| `PasswordManager.GenerateHashReadsOnlyHashFields` | password_manager/password_manager.py:46-47 | two records agreeing on the eight fields hash alike, whatever other keys they hold |
| `PasswordManager.GenerateHashIgnoresOtherKey` | password_manager/password_manager.py:46-47 | setting or removing any key outside the eight, `"hash"` included, leaves the hash unchanged |
| `PasswordManager.PreimageAmbiguous` | password_manager/password_manager.py:46-47 | two different records (one character moved from username to email) have the same hash for every `sha`: the join has no separator |
| `PasswordManager.NewId` | password_manager/password_manager.py:65 | the id is a digit string whose value is count + 1; it has exactly 3 characters while count < 999 and is plain `str(count+1)` from then on |
| `PasswordManager.NewIdExamples` | password_manager/password_manager.py:65 | 0 → `"001"`, 1 → `"002"`, 9 → `"010"`, 998 → `"999"`, 999 → `"1000"` |
| `PasswordManager.NewIdInjective` | password_manager/password_manager.py:65 | distinct counts give distinct ids, and equal ids mean equal counts |
| `PasswordManager.RegDate` | password_manager/password_manager.py:71 | an answer that is all white space (empty after strip) becomes `today`; any other answer is kept as stripped, non-empty and with no white space at either end |
| `PasswordManager.UnhashedEntry` | password_manager/password_manager.py:75-84 | the dict has exactly the eight keys, each holding its value |
| `PasswordManager.WithHash` | password_manager/password_manager.py:85 | adds only `"hash"` and leaves the rest of the record as it was; its value is `generate_hash` of the record before the key was added, and rehashing the result gives the same value |
| `PasswordManager.NewEntry` | password_manager/password_manager.py:63-85 | the built record has the eight fields plus `"hash"`; without `"hash"` it is the dict of the stripped answers, the new id, the reg_date default and `now`; the stored hash equals `generate_hash` of the record with or without `"hash"` |
| `PasswordManager.NewEntryHashPreimage` | password_manager/password_manager.py:75-85 | the stored hash is `sha` of the stored record's own id, username, email, phone, password, reg_date, timestamp and note, in that order |
| `PasswordManager.OrdinalIdsAppend` | password_manager/password_manager.py:86 | appending the next record to a list whose i-th id is `NewId(i)` keeps that shape |
| `PasswordManager.OrdinalIdsDistinctIncreasing` | password_manager/password_manager.py:65 | in a list built from empty by adds the i-th id has value i + 1, so ids are pairwise distinct and increase in insertion order |
| `PasswordManager.Notebook.constructor` | password_manager/password_manager.py:64 | the notebook holds the list `load_data()` returned |
| `PasswordManager.Notebook.AddEntry` | password_manager/password_manager.py:63-87 | the new list is the old list with exactly the one `NewEntry` record appended at the end, built after `len(old)` records; the warning is raised iff the option answer is invalid; ordinal ids are preserved |
| `PasswordManager.TwoAddsFromEmpty` | password_manager/password_manager.py:63-87 | from an empty list, two adds give the ids `"001"` then `"002"` |
| `PasswordUtils.OptionPolicy` | password_manager/password_utils.py:24-37 | options 1..4 map to (digits, 6), (digits, 8), (mixed, 8), (mixed, 12); any other integer is `ValueError` |
| `PasswordUtils.GeneratePassword` | password_manager/password_utils.py:14-39 | for every draw stream: options 1 and 2 give 6 and 8 decimal digits, options 3 and 4 give 8 and 12 characters each an ASCII letter, digit or one of `!@#$%^&*`; it is an error exactly when the option is outside 1..4 |
| `PasswordUtils.MixedAlphabetMembers` | password_manager/password_utils.py:31 | a character is in the options-3/4 alphabet iff it is an ASCII letter, a digit or one of `!@#$%^&*` |
| `PasswordUtils.CharactersOfAlphabets` | password_manager/password_utils.py:24-35 | membership in the digit and mixed alphabets, character by character, in terms of character classes |
| `PasswordUtils.GeneratePasswordNoParentheses` | password_manager/password_utils.py:30-35 | options 3 and 4 never produce `'('` or `')'` |
| `PasswordUtils.GeneratePasswordInvalidIgnoresDraws` | password_manager/password_utils.py:36-37 | an option outside 1..4 raises whatever the random source would have yielded |
| `PasswordUtils.RawString` | password_manager/password_utils.py:46-47 | the hashed text is the same eight-field ordered concatenation, missing keys giving `""` |
| `PasswordUtils.CalculateHash` | password_manager/password_utils.py:42-48 | `calculate_hash` is `sha` of that concatenation |
| `PasswordUtils.CalculateHashIgnoresOtherKeys` | password_manager/password_utils.py:46-47 | records agreeing on the eight fields get the same hash |
| `CrossCheck.HashCopiesAgree` | password_manager/password_utils.py:42-48 | `calculate_hash` equals `generate_hash` on every record and for every `sha` |
| `CrossCheck.StoredHashMatchesCalculateHash` | password_manager/password_manager.py:85 | the hash `add_entry` stores equals `calculate_hash` of the stored record |
| `CrossCheck.MixedAlphabetsDiffer` | password_manager/password_manager.py:24 | the manager's mixed alphabet is exactly the utilities' one plus `'('` and `')'` |
| `CrossCheck.UtilsPasswordsFitManagerTable` | password_manager/password_utils.py:24-39 | for options 1..4 both tables give the same length, and every `generate_password` result also conforms to the manager's policy for the same key |
| `CrossCheck.ParenthesesOnlyFromManager` | password_manager/password_manager.py:23-24 | a draw stream makes the manager's option 3 return `((((((((`, a password that no `generate_password` call returns |
| `CrossCheck.InvalidOptionHandlingDiffers` | password_manager/password_manager.py:58-60 | an invalid answer gives a warned mixed-8 password in the manager, while an invalid option raises in the utilities |
| `Sampling.Draw` | password_manager/password_utils.py:39 | length n, and the i-th character is the alphabet entry the i-th draw picks |
| `Sampling.Generate` | password_manager/password_manager.py:21-26 | `random.choices(alphabet, k=length)` yields a conforming password for every valid draw stream |
| `Sampling.GenerateReachesEveryConformingPassword` | password_manager/password_utils.py:39 | every password that conforms to a policy is produced by some draw stream (the draw model rules nothing out) |
| `Sampling.GenerateUsesOnlyPrefix` | password_manager/password_utils.py:39 | only the first `length` draws affect the password |
| `Sampling.ConformsToWiderAlphabet` | password_manager/password_utils.py:31 | conformance carries over to a larger alphabet of the same length |
| `Sampling.IndexOf` | password_manager/password_utils.py:39 | the position of the first occurrence of a character that is in the alphabet |
| `Sampling.IndicesOf` | password_manager/password_utils.py:39 | a valid draw stream whose draws spell a given password |
| `Records.Get` | password_manager/password_manager.py:46 | `dict.get(key, '')`: the value when present, `""` otherwise |
| `Records.JoinFieldsStep` | password_manager/password_manager.py:46-47 | one step of the separator-free join |
| `Records.JoinFields` | password_manager/password_manager.py:46-47 | `''.join(record.get(f, '') for f in fields)`: the value of the first field followed by the join of the rest, `""` for no fields; what it yields is stated by the two rows below |
| `Records.JoinEightFields` | password_manager/password_manager.py:46-47 | the join over an eight-field list, written out |
| `Records.JoinFieldsDependsOnlyOnFields` | password_manager/password_utils.py:46-47 | the join reads the record only at the listed fields |
| `Records.JoinFieldsIgnoresOtherKey` | password_manager/password_manager.py:46-47 | setting an unlisted key leaves the join unchanged |
| `Records.JoinFieldsIgnoresRemovedKey` | password_manager/password_manager.py:46-47 | removing an unlisted key leaves the join unchanged |
| `PyStr.IsSpace` | password_manager/password_manager.py:67-73 | the characters `str.strip()` removes: U+0009..U+000D, U+001C..U+0020, U+0085, U+00A0, U+1680, U+2000..U+200A, U+2028, U+2029, U+202F, U+205F, U+3000; the strip rows below are stated in its terms |
| `PyStr.Strip` | password_manager/password_manager.py:67-73 | `str.strip()`: empty iff the input is all white space; otherwise it neither starts nor ends with white space and is the input with only white space removed from its ends |
| `PyStr.StripBounds` | password_manager/password_manager.py:67-73 | the kept slice bounds: all white space outside, non-space characters at both ends inside |
| `PyStr.SpanStart` | password_manager/password_manager.py:67-73 | the forward scan stops at the first non-space character |
| `PyStr.SpanEnd` | password_manager/password_manager.py:67-73 | the backward scan stops after the last non-space character, never below the start |
| `PyStr.StripIdempotent` | password_manager/password_manager.py:67-73 | stripping twice is stripping once |
| `PyStr.DecimalString` | password_manager/password_manager.py:65 | `str(n)`: a non-empty digit string with a leading `'0'` only for 0 |
| `PyStr.DecimalStringLength` | password_manager/password_manager.py:65 | `str(n)` has 1 character exactly below 10, at most 2 exactly below 100, at most 3 exactly below 1000 |
| `PyStr.DecimalRoundTrip` | password_manager/password_manager.py:65 | the value of `str(n)` is n |
| `PyStr.DecimalStringInjective` | password_manager/password_manager.py:65 | `str` is injective on non-negative integers |
| `PyStr.ZFill` | password_manager/password_manager.py:65 | `zfill(width)`: length max(len, width), unchanged when already long enough, and for an unsigned string the original is a suffix with only `'0'` before it |
| `PyStr.ZFillKeepsValue` | password_manager/password_manager.py:65 | zero-padding a digit string keeps its numeric value |
| `PyStr.LeadingZeroValue` | password_manager/password_manager.py:65 | one leading `'0'` does not change a digit string's value |
| `PyStr.LeadingZerosValue` | password_manager/password_manager.py:65 | any number of leading zeros do not change a digit string's value |
| `PyStr.Zeros` | password_manager/password_manager.py:65 | k copies of `'0'` |
| `PyStr.DigitValue` | password_manager/password_manager.py:65 | a digit's value is below 10 and `string.digits` holds the digit at that index |
| `PyStr.DigitsMembers` | password_manager/password_utils.py:25 | a character is in `string.digits` iff it is in `'0'..'9'` |
| `PyStr.AsciiLettersMembers` | password_manager/password_utils.py:31 | a character is in `string.ascii_letters` iff it is in `'a'..'z'` or `'A'..'Z'` |
| `PyStr.LowercaseAt` | password_manager/password_utils.py:31 | `string.ascii_lowercase` holds `'a'..'z'` in order |
| `PyStr.UppercaseAt` | password_manager/password_utils.py:31 | `string.ascii_uppercase` holds `'A'..'Z'` in order |

## Left out

- `load_data` / `save_data` (password_manager/password_manager.py:30-42): file existence, JSON parsing and writing are I/O. `Notebook` is constructed from the loaded list, and the save after the append is not modelled. `add_entry` reloads the file on every call (line 64); calling `Notebook.AddEntry` twice on one `Notebook` (as `TwoAddsFromEmpty` does) stands for add_entry, save_data, load_data, add_entry, which assumes that a JSON dump and load of a list of string-valued dicts gives the same list back.
- `list_entries` and the `main` menu loop (password_manager/password_manager.py:91-119): `main` reads the stripped menu choice and calls `add_entry` on `'1'`, `list_entries` on `'2'`, stops on `'3'` and warns otherwise. `list_entries` reads the file through `load_data`, which creates a `data.json` holding `[]` if none exists, and prints every record (or a message for an empty list). Neither changes the list of records; the file creation is I/O like the rest of `load_data`.
- The printed option menu, the option descriptions in `PASSWORD_OPTIONS`, and the warning and success messages: UI text. The warning is modelled as a boolean.
- `hashlib.sha256(...).hexdigest()` and UTF-8 encoding: foreign code. They are the parameter `sha`, so nothing is assumed about digests (no collision freedom, no 64-hex-character shape).
- The internals of `random.choices` / `random.choice`: replaced by the injected index stream. Uniformity and independence of the draws are not modelled.
- `datetime.now()`: `today` and `now` are given as already formatted strings. Line 72 always reads the clock and line 71 reads it only for an empty date answer, so the two values are independent parameters and `today` is ignored when a date is typed.
- `input()`: the raw answer lines are parameters (`AddInput`, the option line).
- `str()` of non-string values in the hash join: all record values are strings, so a JSON number or null stored in a loaded record is not modelled.
- Dict key order: records are maps, so the order in which the keys are printed or saved is not captured.
- `PyStr.Strip`: `str.isspace` is modelled by its fixed list of code points; other Unicode behaviour of Python strings is out of scope.
- `password_manager.py` line 16 imports `generate_password` and `calculate_hash` but never calls them, so no call from the manager into the utilities is modelled. The two copies are compared in `CrossCheck` instead.
- Search, delete, fingerprint-prefix matching and atomic writes: the code has none of them.
