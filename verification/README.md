# Form copy between web maps — a Dafny model

This project models the decision logic of the form-copy script of the Field
Maps sample scripts: the `replace_form` routine, which copies each source
layer's `formInfo` (a form definition) into every destination layer or table
with the same `url`, and the part of `main` that checks the two portal items,
runs that merge on the operational layers and then on the tables, and decides
whether the destination web map is saved.

- `wrappers.dfy` (`Wrappers`): `Option` and `Result`.
- `json.dfy` (`Json`): JSON values and Python truthiness (`Truthy`).
- `descriptors.dfy` (`Descriptors`): a layer descriptor with its `url`,
  `title` and `formInfo` keys, each of which may be absent, plus the keys the
  script never touches. It also holds the tests the script applies: url match,
  title filter and "has a form".
- `form_merge.dfy` (`FormMerge`): `ReplaceForm` and `CopyToMatches` as pure
  functions. The run-stopping `sys.exit` becomes `Failure(ExistingForm)`.
  `ReplaceFormLoop` and `CopyToMatchesLoop` are the script's nested loops
  with in-place updates, proved equal to the functions.
- `merge_spec.dfy` (`MergeSpec`): a loop-free description of the merge, one
  destination at a time, and the theorem that `ReplaceForm` meets it.
- `merge_properties.dfy` (`MergeProperties`): consequences of that theorem
  which callers rely on.
- `copy_form.dfy` (`CopyForm`): `main`'s decision, `CopyFormBetweenMaps`, and
  its characterization.
- `scenarios.dfy` (`Scenarios`): concrete maps for four end-to-end
  situations: a form copied, a copy blocked by an existing form, a forced
  overwrite, and no matching url. It also holds two merge-level examples on
  `ReplaceForm`: two descriptors without a url match and an empty form
  counts as none, and a title filter skips an untitled destination.

The global `args.layer_name` read inside `replace_form`, and the global
`args.overwrite` read in `main`, are explicit parameters here. Fetching items
(`gis.content.get`, `get_data`) is an input: the items are passed in as
`Option<Item>`. Saving (`update`) is an output: the outcome `Saved(document)`.

Two points where the code is subtler than "copy the form where none exists":
- The code (scripts/copy_form_between_maps.py:71) tests Python
  truthiness. So a destination whose `formInfo` is `null`, `{}`, `[]`, `""`,
  `0` or `false` is overwritten without `--overwrite`.
- Because of that test, "a destination is written at most once without
  `--overwrite`" holds only for truthy forms. A source whose form is falsy
  (for example `{}`) can be followed by another matching source without
  stopping the run. `MergeProperties.WrittenAtMostOnce` states the exact rule.

## Model

| member | source | states |
|---|---|---|
| FormMerge.CopyToMatches | scripts/copy_form_between_maps.py:66-75 | For one form-bearing source, the inner loop stops exactly when some destination would stop on its own. Otherwise each destination becomes what its own step makes it, the list keeps its length and order, and the flag is true exactly when some destination matched. |
| FormMerge.ReplaceForm | scripts/copy_form_between_maps.py:61-76 | A completed merge returns a list of the same length, and each entry agrees with the original on every key but `formInfo`. |
| FormMerge.CopyToMatchesLoop | scripts/copy_form_between_maps.py:66-75 | The in-place inner loop, which returns on the first existing form, computes exactly `CopyToMatches`. |
| FormMerge.ReplaceFormLoop | scripts/copy_form_between_maps.py:61-76 | The nested loops, with one shared `modified` flag and an in-place list, compute exactly `ReplaceForm`. |
| MergeSpec.TargetsIgnoresForm | scripts/copy_form_between_maps.py:67-72 | Whether a source reaches a destination depends only on the destination's `url` and `title`, which a form copy never changes. |
| MergeSpec.TrackCharacterized | scripts/copy_form_between_maps.py:63-75 | For one destination, the scan stops iff a form would be clobbered without `--overwrite`. That happens when the destination is targeted while holding its own truthy form, or when a truthy source form reached it and a later source targets it. Otherwise the destination ends with the last targeting source's form, or unchanged if none targets it. |
| MergeSpec.PerDestination | scripts/copy_form_between_maps.py:63-76 | The whole merge stops iff the scan of some single destination stops. Otherwise each destination is what its own scan makes it, and the result is true iff some destination was targeted. |
| MergeSpec.ReplaceFormCharacterized | scripts/copy_form_between_maps.py:61-76 | `replace_form` as a whole: it stops iff some destination would be clobbered. Otherwise length and order are kept, and each destination takes the last targeting source's form with every other key untouched, or stays unchanged. The result is true iff some form-bearing source matched some destination. |
| MergeProperties.NoFormsNoChange | scripts/copy_form_between_maps.py:62-64 | When no source has a `formInfo` key, the result is false and the destination list is returned untouched. |
| MergeProperties.OverwriteNeverStops | scripts/copy_form_between_maps.py:71-75 | With `--overwrite` the merge never stops. |
| MergeProperties.ExistingFormStops | scripts/copy_form_between_maps.py:71-75 | Without `--overwrite`, a form-bearing source that reaches a destination still holding a truthy form of its own stops the run. |
| MergeProperties.UnmatchedUnchanged | scripts/copy_form_between_maps.py:67-69 | A destination whose url no source shares, or whose title fails a set filter, comes out exactly as it went in. A missing title never passes a set filter. |
| MergeProperties.LastSourceWins | scripts/copy_form_between_maps.py:63-73 | A targeted destination ends with the form of the last source in source order that targets it, with nothing else changed, and the result is true. |
| MergeProperties.WrittenAtMostOnce | scripts/copy_form_between_maps.py:71-75 | A completed run without `--overwrite` wrote only into destinations that held no truthy form. Every source form that reached a destination before a later targeting source was falsy. |
| MergeProperties.ModifiedEvenIfSame | scripts/copy_form_between_maps.py:72-73 | For any lists, options and filter: when the last source targeting a destination carries the form that destination already had, a completed merge leaves the destination identical and still returns true. |
| MergeProperties.OneSourceOneDestination | scripts/copy_form_between_maps.py:66-75 | With one source and one destination: no match leaves it (false); a permitted match copies the form (true); an existing form without `--overwrite` stops the run. |
| CopyForm.RunDecision | scripts/copy_form_between_maps.py:95-117 | A missing item gives a not-found error and a non-web-map item a type error. Otherwise the run stops iff the layers or the tables merge would clobber a form, even after the layers changed in memory. It saves iff neither clobbers and some layer or table was targeted. The saved document holds the merged lists and keeps every other key and the absence of an absent list. |
| MergeProperties.NothingToWriteInto | scripts/copy_form_between_maps.py:61-76 | A merge into an empty destination list changes nothing and returns false, whatever the sources. |
| CopyForm.AbsentListsSaveNothing | scripts/copy_form_between_maps.py:102-106 | Missing `operationalLayers` and `tables` lists read as empty. So when each list is missing from the source map or from the destination map, the run saves nothing. |
| CopyForm.WebMapTypeCaseInsensitive | scripts/copy_form_between_maps.py:97-98 | The item-type check accepts a type string iff it is seven characters long and each character is the lower- or upper-case form of the matching letter of "web map". |
| Descriptors.Get | scripts/copy_form_between_maps.py:67-71 | `layer.get(key, None)`: the key's value, or `null` when the key is absent. |
| Descriptors.UrlMatches | scripts/copy_form_between_maps.py:67 | `d_layer.get("url", None) == s_layer.get("url", None)`. |
| Descriptors.PassesFilter | scripts/copy_form_between_maps.py:69 | `args.layer_name is None or args.layer_name == d_layer.get("title", None)`. |
| Descriptors.HasForm | scripts/copy_form_between_maps.py:71 | The negation of `not d_layer.get("formInfo", None)`: the destination's form is present and truthy. |
| Json.Truthy | scripts/copy_form_between_maps.py:71 | Python `bool()` of a JSON value: `None`, `False`, `0`, `""`, `[]` and `{}` are false. |
| CopyForm.ListOrEmpty | scripts/copy_form_between_maps.py:102-106 | `data.get("operationalLayers", [])` and `data.get("tables", [])`: an absent list reads as empty. |
| CopyForm.LowerAscii | scripts/copy_form_between_maps.py:97 | `type.lower()`, for ASCII letters. |
| CopyForm.IsWebMap | scripts/copy_form_between_maps.py:97 | The type test `type.lower() == "web map"`; specified for every type string by `CopyForm.WebMapTypeCaseInsensitive`. |
| CopyForm.CopyFormBetweenMaps | scripts/copy_form_between_maps.py:95-117 | `main` after authentication; specified by `CopyForm.RunDecision`: lookup errors first, a stop iff either list would clobber a form, and a save iff something was targeted. |
| FormMerge.Apply | scripts/copy_form_between_maps.py:67-75 | The innermost branch for one source and one destination; specified through `FormMerge.CopyToMatches` and `MergeProperties.OneSourceOneDestination`: leave, copy the form, or stop. |
| Scenarios.FormCopiedIntoEmptyTable | scripts/copy_form_between_maps.py:109-115 | A formless destination table with the source's url gains the source's form, and the map is saved. |
| Scenarios.ExistingFormBlocksCopy | scripts/copy_form_between_maps.py:71-75 | If that table already holds a form, the run stops without `--overwrite`. |
| Scenarios.OverwriteReplacesForm | scripts/copy_form_between_maps.py:71-73 | With `--overwrite`, the existing form is replaced and the map is saved. |
| Scenarios.NoMatchingUrlNothingSaved | scripts/copy_form_between_maps.py:113-117 | If no source shares the destination's url, nothing is saved. |
| Scenarios.MissingUrlsMatchAndEmptyFormIsNoForm | scripts/copy_form_between_maps.py:67-72 | A source and a destination that both lack `url` match, and an empty `{}` form on the destination counts as no form. |
| Scenarios.FilterSkipsUntitled | scripts/copy_form_between_maps.py:69 | A set title filter skips a destination with no `title`. |

## Left out

- scripts/download_attachments.py: it is remote searches and downloads plus
  filesystem writes with every error swallowed. It has no logic to state
  beyond choosing the item id over the layer url.
- Logging setup and the rotating log file (scripts/copy_form_between_maps.py:33-58).
  These are I/O configuration.
- Argument parsing and the top-level exception logger
  (scripts/copy_form_between_maps.py:121-145). Their effect is modelled as
  the `RunOutcome` constructors: `ValueError` becomes `ItemNotFound` or
  `NotAWebMap`, and `sys.exit` becomes `ExistingFormDetected`. A
  `SystemExit` is not caught by `except Exception`, but either way nothing is
  saved.
- Authentication and the remote fetch and update
  (scripts/copy_form_between_maps.py:87-94, 102-106, 115). The fetched items
  are parameters; the update is the `Saved` outcome.
- The structure of `formInfo`: it is copied as an opaque JSON value. Only its
  truthiness is inspected.
- Python equality between JSON values of different kinds. For example,
  `True == 1` and `1 == 1.0` hold in Python. The model's `Json` keeps booleans
  and numbers apart and has integer numbers only, so urls or titles that are
  such non-string values may compare differently. Floating-point numbers are
  not modelled.
- A descriptor list that is present but `null`. The model's lists are either
  absent or a sequence. In Python:
  - A `null` source list raises `TypeError` at
    scripts/copy_form_between_maps.py:63. The top-level handler logs it, and
    nothing is saved.
  - A `null` destination list raises at line 66 only when some entry of the
    matching source list passes the test at line 64. Otherwise that merge
    returns `False` and the run goes on. It may still save, because of the
    other list, and the saved document keeps the `null` list.
- CopyForm.WebMapTypeCaseInsensitive: `str.lower()` is modelled for ASCII letters
  only. This does not change the verdict of the type test: under Unicode case
  mapping no character outside ASCII lowers to a character of "web map".
- List entries that are not JSON objects. Python treats them as follows:
  - A `null`, boolean or numeric source entry raises `TypeError` at the
    `formInfo` key test (scripts/copy_form_between_maps.py:64).
  - A string or array source entry gets a substring or element test there
    instead. It is skipped if that test fails. Otherwise `.get` raises at
    line 67 once the destination list is non-empty; with an empty destination
    list the entry is skipped.
  - A non-object destination entry raises `AttributeError` at line 67 when a
    form-bearing source's scan reaches it. It is never reached if an earlier
    conflict already stopped the run at line 75, in this merge or in the
    layers merge before it; that stop is a `SystemExit`, which the top-level
    handler does not log.

  Each `TypeError` or `AttributeError` is logged by the top-level handler,
  and nothing is saved.
  A skipped source entry lets the run go on. The model's `Descriptor` is
  always an object.
- Which conflict is reported: every conflict has the same message
  (`FormMerge.Conflict.Message`), so the model does not record which layer
  caused it.
  The in-memory changes made before the stop are discarded, because nothing
  is saved afterwards.
