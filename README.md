# pydst core, modelled in Dafny

pydst is a thin Python client for the Statistics Denmark API. This project models the client's own logic, with the network calls removed:

- `check_lang`: the client accepts only the languages `da` and `en`.
- The subjects URL `Dst.get_subjects` builds. It uses the client's language or a per-call override, and an optional subjects filter.
- The response guard `bad_request_wrapper`. On a failed response it uses Statistics Denmark's own error message as the HTTP reason.
- The subject-tree flattener `desc_to_df`/`json_to_df_dict`. It turns the nested subject hierarchy into one row per leaf subject.
- The validators in `pydst/validators.py`: `lang_validator`, `str_in_list` and `dict_keys_to_comma_str`.

Modules, one per source file plus two shared ones:

- `Py` (py.dfy): the Python values the core inspects (`None`, `bool`, `int`, `str`, `list`), their truthiness, and the exceptions raised.
- `Strings` (strings.dfy): `str.join` and one-character `str.split`. It proves that every part stands at its offset in the joined string, and that splitting a joined list gives the list back.
- `Utils` (utils.dfy): `pydst/utils.py`. The flattener is the method `JsonToDfDict`, a loop proved against the recursive function `Flatten`. `Flatten` is in turn proved equal to an independent reference: the rows of the leaves of the tree in pre-order. The guard is the method `BadRequestWrapper`. It updates a `Response` object's `reason` and is proved against the function `GuardVerdict`.
- `Validators` (validators.dfy): `pydst/validators.py`. The cerberus regular-expression check is the parameter `matches`.
- `Pydst` (pydst.dfy): `pydst/pydst.py`. `Dst` is a class with one `lang` field. `NewDst` is the checked construction. `SubjectsUrl` is the URL choice, and `ParseSubjectsUrl` is its inverse, used for a round-trip proof. `Dst.GetSubjects` chains the URL, a caller-supplied server, the guard and the flattener.

Behaviour of the code that the model keeps:

- A failed response whose body is not JSON makes `r.json()` raise, so the guard raises a JSON decode error. It does not fall back to the transport's reason.
- A language override in `get_subjects` is not validated.
- The subjects filter is not checked to be numeric.
- A subject node without a `subjects` key is not treated as a leaf: the code indexes `i['subjects']`. Every modelled node carries the key.

## Model

| member | source | states |
|---|---|---|
| `Utils.CheckLang` | pydst/utils.py:21-30 | returns the argument unchanged exactly when it is the string `da` or `en`; every other value, string or not, raises ValueError with the fixed message |
| `Utils.ToRecord` | pydst/utils.py:45 | a row copies `id`, `active` and `hasSubjects` from its node and takes `desc` from `description` |
| `Utils.JsonToDfDict` | pydst/utils.py:41-48 | the append/extend loop with its recursive call returns exactly `Flatten` of its input |
| `Utils.Flatten` | pydst/utils.py:41-48 | the recursive reading of `json_to_df_dict`, with `Utils.Emit` giving one node's contribution: its own row for a leaf, the flattening of its children otherwise; its meaning is stated by the lemmas below |
| `Utils.FlattenAppend` | pydst/utils.py:42-48 | the output order follows the input: flattening `a + b` gives flattening `a` followed by flattening `b` |
| `Utils.FlattenReplacesParent` | pydst/utils.py:46-47 | a node with children is not emitted; its place in the output is taken by the flattening of its children |
| `Utils.FlattenIsLeafRows` | pydst/utils.py:41-48 | the output is exactly the rows of the leaves of the forest, in pre-order |
| `Utils.FlattenRowsAreLeaves` | pydst/utils.py:43-47 | every emitted row is the row of some leaf of the tree, and every leaf of the tree has its row emitted |
| `Utils.FlattenLength` | pydst/utils.py:43-45 | the number of rows equals the number of leaves in the tree |
| `Utils.FlattenFlat` | pydst/utils.py:43-45 | on input where every node has an empty `subjects`, the output has one row per node in the same order |
| `Utils.ThreeRowExample` | pydst/utils.py:41-48 | two top-level subjects, a leaf and a parent of two leaves, give three rows: the leaf, then the two children |
| `Utils.BadRequestWrapper` | pydst/utils.py:3-19 | the response's new reason and the raised error (or none) are those `GuardVerdict` and `ReasonAfter` give for its status, body and old reason |
| `Utils.RaiseForStatus` | pydst/utils.py:17-19 | `raise_for_status` passes exactly for an ok status; otherwise it raises an HTTP error carrying the status and the current reason |
| `Utils.ReasonAfter` | pydst/utils.py:13-16 | a failed response whose JSON body has truthy `errorTypeCode` and `message` has its reason replaced by that `message`; in every other case the reason is unchanged |
| `Utils.GuardVerdict` | pydst/utils.py:13-19 | the guard passes exactly for an ok status; an HTTP error it raises carries the response's status and comes from a JSON-object body; a failed response whose body is not JSON raises a JSON decode error |
| `Utils.GuardPassesOk` | pydst/utils.py:13 | a response that is ok passes and its reason is unchanged |
| `Utils.GuardRaisesOnFailure` | pydst/utils.py:13-19 | a response that is not ok always raises |
| `Utils.GuardUsesServerMessage` | pydst/utils.py:14-17 | a failed response whose body has truthy `errorTypeCode` and `message` raises an HTTP error carrying `message` as its reason |
| `Utils.GuardKeepsReason` | pydst/utils.py:18-19 | a failed response whose JSON object lacks either field raises with the reason unchanged |
| `Utils.GuardIgnoresZeroErrorCode` | pydst/utils.py:14-19 | an `errorTypeCode` of 0 is falsy, so the server's message is ignored and the reason is kept |
| `Utils.GuardQuotaExample` | pydst/utils.py:14-17 | `{"errorTypeCode": 1, "message": "Quota exceeded"}` on status 429 raises with reason "Quota exceeded" |
| `Strings.Join` | pydst/pydst.py:77 | `sep.join(parts)`: the empty list gives the empty string, and a non-empty list's result starts with its first part |
| `Strings.JoinPieceAt` | pydst/validators.py:75 | each part stands unchanged at its offset in the joined string |
| `Strings.JoinSepAt` | pydst/validators.py:75 | exactly one separator stands between consecutive parts |
| `Strings.JoinLength` | pydst/validators.py:75 | the joined string ends with its last part |
| `Strings.SplitJoin` | pydst/pydst.py:77 | splitting the comma-join of a non-empty list of comma-free parts gives the list back (the empty list joins to "", which splits into `[""]`) |
| `Validators.StrInList` | pydst/validators.py:50-64 | true exactly when the string is an element of the list |
| `Validators.DictKeysToCommaStr` | pydst/validators.py:66-75 | an empty dictionary gives the empty string and a one-key dictionary gives that key |
| `Validators.DictKeysInOrder` | pydst/validators.py:66-75 | each key appears verbatim at its place: after the earlier keys, with one ", " after each of them; exactly ", " separates consecutive keys, and the result ends with the last key |
| `Validators.SchemaErrors` | pydst/validators.py:19-38 | there are no schema errors exactly when `lang` is a well-formed string and `valid_langs` a list of well-formed strings; an error is keyed `lang` exactly when `lang` is ill-formed and `valid_langs` exactly when `valid_langs` is ill-formed, and no other key occurs |
| `Validators.LangValidator` | pydst/validators.py:3-47 | returns normally exactly when `lang` is a well-formed string that is an element of the well-formed list `valid_langs`; every other call raises ValueError |
| `Validators.LangValidatorNamesLang` | pydst/validators.py:40-44 | an ill-formed `lang` (a non-string, say) raises ValueError naming `lang`, before membership is checked |
| `Validators.LangValidatorNamesValidLangs` | pydst/validators.py:40-44 | an ill-formed `valid_langs` (a string instead of a list, say) raises ValueError naming `valid_langs` |
| `Validators.LangValidatorNamesBoth` | pydst/validators.py:40-44 | when both are ill-formed the message names "lang, valid_langs" in document order |
| `Validators.LangValidatorAcceptsDa` | tests/test_validators.py:23-24 | `lang_validator('da', ['da', 'en'])` returns normally |
| `Validators.LangValidatorRejectsInt` | tests/test_validators.py:11-13 | `lang_validator(2, ['da', 'en'])` raises ValueError naming `lang` |
| `Validators.LangValidatorRejectsStringList` | tests/test_validators.py:15-17 | `lang_validator('da', 'da')` raises ValueError naming `valid_langs` |
| `Validators.LangValidatorRejectsMissing` | pydst/validators.py:46-47 | `lang_validator('da', ['en'])` raises ValueError "da is not in ['en']" |
| `Pydst.ResolveLang` | pydst/pydst.py:67-68 | a falsy override (None or "") falls back to the client's language; any other override is used as given, without a language check |
| `Pydst.SubjectsUrl` | pydst/pydst.py:70-80 | raises exactly for a truthy filter that is neither a string nor a list of strings: ValueError for a non-list, TypeError for a list with a non-string; every URL starts with the subjects endpoint |
| `Pydst.ListUrl` | pydst/pydst.py:76-78 | every non-empty list of strings gives the endpoint, the strings joined by "," without spaces, then `?lang=<lang>&format=JSON` |
| `Pydst.SubjectsUrlRoundTrip` | pydst/pydst.py:72-78 | for any list of subject ids (empty included), parsing the URL built from it gives back exactly the ids and the language |
| `Pydst.StringAndListAgree` | pydst/pydst.py:33-36 | a comma-separated string of ids asks for the same URL as the list of those ids |
| `Pydst.SubjectsUrlDocExample` | pydst/pydst.py:50 | no filter with language `en` gives `https://api.statbank.dk/v1/subjects/?lang=en&format=JSON` |
| `Pydst.SubjectsUrlFalsy` | pydst/pydst.py:72-73 | every falsy filter gives the endpoint followed by `?lang=<lang>&format=JSON` |
| `Pydst.SubjectsUrlString` | pydst/pydst.py:74-75 | every non-empty string filter is inserted verbatim between the endpoint and `?lang=<lang>&format=JSON` |
| `Pydst.SubjectsUrlStringExample` | pydst/pydst.py:74-75 | the filter `02` with language `da` gives `https://api.statbank.dk/v1/subjects/02?lang=da&format=JSON` |
| `Pydst.SubjectsUrlListExample` | pydst/pydst.py:76-78 | the list `['02', '05']` is joined as `02,05`, without spaces |
| `Pydst.SubjectsUrlIntExample` | pydst/pydst.py:79-80 | the filter `2` raises ValueError |
| `Pydst.Dst.constructor` | pydst/pydst.py:21-22 | a client holds the language it was given, one of `da`/`en` |
| `Pydst.NewDst` | pydst/pydst.py:21-22 | construction succeeds exactly when `check_lang` accepts the language, with `en` as the default; the new client holds it; otherwise the ValueError of `check_lang` |
| `Pydst.ConstructionExamples` | tests/test_pydst.py:23-34 | constructing with no language gives a client holding `en`, with `da` one holding `da`, and with `es` a ValueError |
| `Pydst.Dst.SubjectsRequestUrl` | pydst/pydst.py:67-80 | the URL (or error) is `SubjectsUrl` of the filter and the resolved language; the client's language is left unchanged |
| `Pydst.SubjectRows` | pydst/pydst.py:85 | a reply body gives rows exactly when it is a JSON list of subject nodes, and those rows are the rows of the tree's leaves in pre-order; a body that is not JSON raises a JSON decode error |
| `Pydst.Dst.GetSubjects` | pydst/pydst.py:67-85 | a bad filter raises before any request; otherwise the guard's error for a failed reply, else the flattened subject rows of the reply |

## Left out

- The HTTP request (`requests.get`) is a parameter of `Dst.GetSubjects`, a function from URL to reply. How `raise_for_status` formats its message is not modelled: the error carries the status and the reason.
- The pandas `DataFrame` built by `desc_to_df` is a sequence of rows. Column order and dtypes are not modelled.
- The semantics of the cerberus library: its `[a-zA-Z]+` regular expression is the parameter `matches`. The values of `v.errors` are the name of the first rule broken, not cerberus's message lists. Only the keys of `v.errors` reach the raised message.
- `Validators.ListRepr`: agrees with Python's `repr` of a list only for strings of printable characters without quotes or backslashes. `repr` escapes those, and control characters, and switches to double quotes for a string holding `'`. Such strings can reach the message: cerberus applies `[a-zA-Z]+$` with `re.match`, so a language such as `"da\n"` passes the schema.
- `Validators.DictKeysToCommaStr`: keys are strings. The `str()` of non-string keys is not modelled, because the only caller passes field names.
- `Pydst.Dst.SubjectsRequestUrl`: a language override is a string or absent. A non-string override would be formatted with `str()`, which is not modelled.
- Python values other than `None`, `bool`, `int`, `str` and `list` (floats, tuples, dicts as arguments) are not modelled. The equality quirk `1 == True` does not arise, because membership is tested on strings only.
- `Pydst.SubjectsUrl`: the TypeError that `','.join` raises for a non-string element carries a fixed message. Python's message names the index and the type.
- `Pydst.SubjectRows`, `Pydst.Dst.GetSubjects`: a successful reply whose JSON is not a list of subject nodes gives a TypeError. Python's outcome depends on the shape: a TypeError or KeyError, or an empty frame for `{}` or `""`. Malformed nodes (missing keys) are not modelled.
- `Utils.Flatten`: every node is taken to carry a `subjects` list. A missing key raises KeyError in the code and is not modelled.
- Table listing, table metadata, bulk-data download and saving to disk are not part of this model. Packaging (`setup.py`) is not part of this model.
