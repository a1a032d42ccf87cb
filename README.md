# persistable: parameter-keyed persistence, modelled in Dafny

This project models `persistable/persistload.py`, a small persistence layer
that pickles objects into a working directory under file names that encode an
object type and a parameter mapping.

- `PersistLoadBasic` stores each type under the single name `<type>.pkl`.
- `PersistLoadWithParameters` stores under `default_standard_filename(type,
  ext, params)`. On load it first opens that exact name. If the open raises
  `FileNotFoundError`, it scans the directory for files of the same type whose
  parameters contain every requested key with an equal canonical value. One such
  file is loaded. None, or more than one, raise `FileNotFoundError`.
- `PersistLoad.get_type` is the class name after its last `"PersistLoad"`.

Files:

- `outcomes.dfy`: `Option` and `Result`.
- `codecs.dfy`: the collaborators the core calls but does not define. The file
  name codec (`encode`, `parse`), Python's `repr` on parameter values, and
  pickle (`dump`, `load`) are function-typed fields of the datatypes `Naming`
  and `Pickle`. Their round-trip properties are the predicates
  `Naming.RoundTrips` and `Pickle.RoundTrips`. A lemma requires them only when
  it needs them. Canonicalisation is `StripSpaces(repr(v))` per value, which
  is `repr(val).replace(" ", "")`.
- `working_dir.dfy`: the directory. `Listing` is its state: the bytes under
  each name, and the order in which `glob('*')` enumerates the names.
  `WorkingDir` is the object whose `Write` and `Open` model `open(..., 'wb')`
  and `open(..., 'rb')`.
- `similar_files.dfy`: the scan of `_find_similar_files` as specification
  functions (`Filter`, `FirstUnparsable`, `Scan`) and their properties.
- `persist_load.dfy`: both store classes, the specification functions
  `BasicLoadSpec`, `StandardFilename`, `PersistSpec`, `LoadSimilarSpec` and `LoadSpec`, and the lemmas about
  persist and load.
- `class_names.dfy`: `get_type` as `GetType(className)`, Python's
  `className.split("PersistLoad")[-1]`.

Each store method is proved against its specification function. For example,
`FindSimilarFiles` is a loop that appends to a list, and its `ensures` equates
the result with `Scan` of the enumeration order. The lemmas prove the
behaviour of the store about those functions.

Points where the code behaves differently from what its structure suggests:

- Names that fail to decode are not skipped. The call to
  `parse_standard_filename` (line 130) sits outside the `try`, so its
  exception leaves the scan and the load. The model's `parse` returns an
  `Option`. A name that does not parse ends the fallback with `UnparsableName`
  for the first such name in enumeration order (`UnparsableAborts`).
- "No match" and "ambiguous match" are not distinct exceptions. The code
  raises `FileNotFoundError` for both, with different messages (lines 99 and
  103). The model keeps them as the variants `NoSimilarModels` and
  `AmbiguousModels`. `StoreError.IsFileNotFoundError` records that both, and
  `FileMissing`, are the same exception.
- Values are compared as `repr` strings with spaces removed. `repr`
  distinguishes `1` from `"1"`, so those two do not match. The model keeps
  `repr` abstract, so it proves only what the space removal gives
  (`SpacesDoNotMatter`).
- The parameters are spread as keyword arguments next to `fn_ext=fn_ext`
  (lines 56 and 67). A parameter named `"fn_ext"` therefore makes Python raise
  `TypeError` before any file is written or opened. The model computes the
  name through `StandardFilename`, which yields `DuplicateKeyword("fn_ext")`
  in that case, and both persist and load stop with that error.
- The fallback is called without `fn_ext` (line 81). The extension plays no
  part in matching, and the model's `LoadSimilarSpec` takes no extension.

## Model

| member | source | states |
|---|---|---|
| Codecs.StripSpaces | persistable/persistload.py:123 | the canonical string has the same set of characters as the repr minus the space, and is no longer than it |
| Codecs.StripSpacesAppend | persistable/persistload.py:123 | space removal distributes over concatenation, which with the one-character cases fixes the result: the non-space characters in their order |
| Codecs.SpacesDoNotMatter | persistable/persistload.py:123 | reprs that differ by a space have the same canonical form, so they compare equal in the subset test |
| Codecs.StripSpacesIdempotent | persistable/persistload.py:123 | canonicalising a canonical string changes nothing |
| Codecs.Naming.Canonical | persistable/persistload.py:123 | the comparison dict has exactly the requested keys, and none of its values contains a space |
| WorkingDirectory.Listing.Put | persistable/persistload.py:61-62 | writing a file keeps every name enumerated exactly once; it stores the new bytes under the name; it enumerates a new name after the old ones and keeps the position of an existing one |
| WorkingDirectory.PutReadBack | persistable/persistload.py:61-62 | after a write the name reads back the written bytes, and every other name reads back what it did before |
| WorkingDirectory.PutEntryCount | persistable/persistload.py:61-62 | a write adds exactly one entry for a new name and none for an existing one |
| WorkingDirectory.PutOverwrites | persistable/persistload.py:61-62 | two writes to one name leave the directory as the second write alone would |
| WorkingDirectory.WorkingDir.Write | persistable/persistload.py:61-62 | the directory object's new state is the old listing with the name written |
| WorkingDirectory.WorkingDir.Open | persistable/persistload.py:73-74 | opening succeeds exactly when the name is enumerated, and yields its bytes |
| SimilarFiles.FilterMembers | persistable/persistload.py:124-141 | a name is a candidate exactly when it is a directory entry that parses, has the requested type and contains every requested key with an equal canonical value |
| SimilarFiles.FilterIsSubsequence | persistable/persistload.py:121-143 | the candidate list is a subsequence of the enumeration order |
| SimilarFiles.FilterDistinct | persistable/persistload.py:121-143 | no name appears twice among the candidates |
| SimilarFiles.FilterNone | persistable/persistload.py:136-141 | with no similar entry the candidate list is empty |
| SimilarFiles.FilterSingle | persistable/persistload.py:136-141 | with exactly one similar entry the candidate list is that entry alone |
| SimilarFiles.TypeIsolation | persistable/persistload.py:130-134 | no file is a candidate for two different types, whatever the two requests are |
| SimilarFiles.EmptyRequestKeepsType | persistable/persistload.py:138 | with an empty request the candidates are exactly the parsable entries of the type |
| SimilarFiles.MissingKeyExcludes | persistable/persistload.py:137-141 | an entry whose parameters lack a requested key is never a candidate |
| SimilarFiles.LooserRequestKeepsCandidates | persistable/persistload.py:137-141 | dropping requested keys keeps every earlier candidate, in order, so fewer parameters match at least as much |
| SimilarFiles.FirstUnparsableAppend | persistable/persistload.py:124-130 | the first unparsable name of a concatenation lies in the first part when the first part has one, otherwise in the second |
| SimilarFiles.FirstUnparsableIsFirst | persistable/persistload.py:124-130 | the scan stops exactly when some name does not parse; it names the first such name, and every name before it parses |
| SimilarFiles.SubsequenceExtend | persistable/persistload.py:139 | proof helper, a generic sequence fact used for the ordering of the appended candidates: appending to a sequence keeps a subsequence of it a subsequence |
| SimilarFiles.SubsequenceDropLast | persistable/persistload.py:139 | proof helper, a generic sequence fact used for the ordering of the appended candidates: dropping the last element of a subsequence keeps it a subsequence |
| ClassNames.LastPieceSpec | persistable/persistload.py:30 | the last piece of a split contains no separator; it is a suffix of the string; it is the whole string exactly when the separator does not occur; otherwise the string ends with separator plus piece |
| ClassNames.GetTypeSpec | persistable/persistload.py:30 | get_type is the part of the class name after the last "PersistLoad", or the whole name when there is none |
| ClassNames.GetTypeAfterMarker | persistable/persistload.py:30 | a class named "PersistLoad" plus a suffix without the marker has that suffix as its type |
| ClassNames.EndsWithAppend | persistable/persistload.py:30 | proof helper, a generic string fact used by LastPieceSpec: a suffix of the tail of a string is a suffix of the whole string |
| ClassNames.BasicType | persistable/persistload.py:30 | get_type of PersistLoadBasic is "Basic" |
| ClassNames.WithParametersType | persistable/persistload.py:30 | get_type of PersistLoadWithParameters is "WithParameters" |
| ClassNames.BaseType | persistable/persistload.py:30 | get_type of the base class PersistLoad is the empty string |
| PersistLoad.BasicFilenameInjective | persistable/persistload.py:39 | different types get different fixed file names |
| PersistLoad.BasicRoundTrip | persistable/persistload.py:37-45 | loading a type right after persisting an object under it returns the object |
| PersistLoad.BasicPersistIsolation | persistable/persistload.py:37-45 | persisting one type leaves the load of every other type unchanged |
| PersistLoad.BasicLoadFails | persistable/persistload.py:42-45 | a basic load fails exactly when the type's file is absent, and then with FileNotFoundError |
| PersistLoad.PersistLoadBasic.Persist | persistable/persistload.py:37-40 | the directory afterwards is the old one with `<type>.pkl` written with the pickled object |
| PersistLoad.PersistLoadBasic.Load | persistable/persistload.py:42-45 | returns the unpickled content of `<type>.pkl`, or FileNotFoundError for that name |
| PersistLoad.StandardFilename | persistable/persistload.py:56 | a name that is computed (no duplicate-keyword TypeError) parses back, under a round-tripping codec, to the requested type and the canonical parameters, which never hold "fn_ext" |
| PersistLoad.PersistSpec | persistable/persistload.py:53-62 | a successful persist keeps every name enumerated exactly once |
| PersistLoad.PersistLoadWithParameters.Persist | persistable/persistload.py:53-62 | on the TypeError nothing is written; otherwise the directory afterwards is the old one with exactly the encoded name written or overwritten |
| PersistLoad.PersistLoadWithParameters.Load | persistable/persistload.py:64-85 | result equals LoadSpec: the TypeError of the name computation, else the exact file when it opens, otherwise the similar-file fallback |
| PersistLoad.ExtKeywordRaisesTypeError | persistable/persistload.py:56-67 | persist fails exactly when a parameter is named "fn_ext", and then both persist and load raise the duplicate-keyword TypeError |
| PersistLoad.PersistLoadWithParameters.LoadSimilarFile | persistable/persistload.py:87-103 | result equals LoadSimilarSpec: the one candidate's content, NoSimilarModels, AmbiguousModels with the candidate list, or the unparsable name |
| PersistLoad.PersistLoadWithParameters.FindSimilarFiles | persistable/persistload.py:105-143 | the loop's result equals Scan of the enumeration order: the similar names in order, or the first name that does not parse |
| PersistLoad.ExactHitIgnoresRest | persistable/persistload.py:67-76 | when the exact file exists no other entry, parsable or not, affects the result of load, which succeeds unless the name computation raised |
| PersistLoad.PersistThenLoad | persistable/persistload.py:53-76 | after a successful persist, load with the same arguments returns the persisted object |
| PersistLoad.PersistTwiceThenLoad | persistable/persistload.py:53-76 | a second persist with the same arguments overwrites rather than adds, and load returns the second object |
| PersistLoad.ScanWhenAllParse | persistable/persistload.py:121-143 | when every name parses, the scan succeeds; its candidates are exactly the similar entries, each once, in enumeration order |
| PersistLoad.NoCandidateFails | persistable/persistload.py:101-103 | with no similar file the fallback raises FileNotFoundError("No similar models found") |
| PersistLoad.UniqueCandidateLoads | persistable/persistload.py:91-94 | with exactly one similar file the fallback returns that file's unpickled content |
| PersistLoad.SeveralCandidatesAmbiguous | persistable/persistload.py:96-99 | with two or more similar files the fallback fails with a list of exactly the similar files, in enumeration order |
| PersistLoad.UnparsableAborts | persistable/persistload.py:130 | a name that does not parse makes the fallback fail with the first such name, even when candidates exist |
| PersistLoad.LoadFailsWithFileNotFound | persistable/persistload.py:67-103 | when every name parses, load fails only with the "no similar" or the "ambiguous" FileNotFoundError, or with the TypeError of a parameter named "fn_ext" |
| PersistLoad.PutKeepsAllParse | persistable/persistload.py:56-62 | persisting through the codec keeps every enumerated name parsable |
| PersistLoad.LoadBySubsetOfStoredParams | persistable/persistload.py:64-94 | an object persisted under a superset of the requested parameters is loaded when no other file is similar |
| PersistLoad.LoadAmbiguousAfterTwoPersists | persistable/persistload.py:96-99 | two objects persisted under different parameter sets that both contain the request make the load fail as ambiguous, listing both files |
| PersistLoad.LoadWithExtraParamFails | persistable/persistload.py:137-141 | requesting a key that was not persisted finds no similar file, so matching is one-directional; if that key is "fn_ext" the load raises the TypeError instead |

## Left out

- Creating the working directory in the constructor (lines 17-18). A store is built on a `WorkingDir` given in some valid state.
- Logging (lines 21, 38, 43, 57, 68, 75, 84, 92, 97-98, 102). It has no effect on results.
- The bodies of `default_standard_filename`, `parse_standard_filename` and `recursive_value_map` (imported at lines 2-3). util/os_util.py and util/dict.py are not part of this model, so these are abstract functions. Only the round-trip property `Naming.RoundTrips` is assumed, and only by the lemmas that require it.
- PersistLoad.PersistLoadWithParameters.Persist and PersistLoad.PersistLoadWithParameters.Load: the TypeError for non-string parameter keys is not modelled, because parameter keys are strings by type. The signature of `default_standard_filename` is not part of this model, so a parameter that collides with the name of its first positional parameter is not modelled either; only the `fn_ext` collision is.
- Keyword-argument order. `**fn_params` (lines 56 and 67) passes the parameters in dict insertion order, but `encode` takes a map, so the model assumes the encoded name does not depend on that order.
- Nested parameter values. `recursive_value_map` also descends into nested dicts. The model canonicalises each top-level value as one string.
- Python's `repr` formatting. It is an abstract value-to-string function, so the model proves nothing about how numbers and strings compare.
- Pickle's encoding and its failures. `dump` and `load` are abstract, with the round trip `Pickle.RoundTrips`. Unpickling errors (a corrupt file) are not modelled.
- OS errors other than a missing file, and concurrent writers. A path is modelled as its file name within the one working directory, and the directory is flat.
- The exact text of the two fallback messages. `AmbiguousModels` carries the candidate list that the message prints, and `NoSimilarModels` stands for the fixed message "No similar models found".
- `glob` ordering. The enumeration order is whatever order the directory state holds; new files are enumerated after existing ones.
