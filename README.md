# apihangar in Dafny

apihangar is a Django application that publishes stored SQL queries as HTTP
endpoints. A query's SQL names its parameters, either as Python `%`-format
placeholders such as `%(ids)a` or as Django template variables prefixed with
type tags such as `{{ list:int:ids }}`. An endpoint binds several queries under
keys. A request's GET parameters are decoded according to the same type tags.
Every query is rendered with those parameters, normalised to a single line
and executed. The rows come back as ordered dictionaries, filed under the
query keys. Endpoints can be stored in the database (`models.py`) or declared
in code (`registry.py`). Stored endpoints and prebuilt views list required
groups in their own permission tables, and registry endpoints are given a
permission list. `check_permission` reads an object's requirements through
`get_required_permissions`, which only registry endpoints define.

This project models that core:

- `wrappers.dfy`: `Option`, `Result` and the Python exceptions the core
  raises or catches.
- `pystr.dfy`: the Python 2 string operations the core relies on. It covers
  substring test, `str.replace`, `split`/`join`, `strip` with the whitespace set
  of Python 2.7's `unicode` (request values and rendered SQL are `unicode`), `int()` and `str()` of integers. Each comes with the lemmas
  the rest of the model needs.
- `utils.dfy`: ordered dictionaries as sequences of pairs, `dictfetchall`,
  `sorteddict_with_tuples` and `check_permission`.
- `core.dfy`: the placeholder extractor (the regular expression
  `%\(([\w\d\-_]+)\)([sdla])` scanned left to right), the template-variable
  restoration, the tag strip and `)l`/`)a` marker rewrite, and the
  `get_variables`/`render_sql`/`run` pipeline. `models.py` repeats the same
  three operations as `Query` methods, so one model covers both copies.
- `models.dfy`: the cache around `EndpointQuery.run`, the merge in
  `Endpoint.run`, and `PrebuiltView.load_params`.
- `views.dfy`: the decoding of GET parameters in `execute_endpoint`, and the
  union of variables in `retrieve_endpoint_form`.
- `registry.dfy`: code-declared endpoints and the url-to-endpoint registry.

The database connection, the template engine, the Django template inspector,
Python `%` interpolation, the JSON parser and the cache-key digest are not
modelled as code. They are parameters: fields of `Core.Engine`, or function
arguments. Ordered Python dicts are `seq<(string, V)>` with `Utils.Insert`
semantics. Dicts whose order the code never observes are Dafny `map`s.

## Model

| member | source | states |
|---|---|---|
| Core.NameRun | apihangar/core.py:43 | the length of the longest prefix of `[\w\d\-_]` characters; the character after it, if any, is not one of them |
| Core.MatchHereSpec | apihangar/core.py:43 | a placeholder is matched at the head of the text exactly when some well-formed placeholder text is a prefix, and it is that placeholder |
| Core.MatchFits | apihangar/core.py:43 | a placeholder prefix fixes where its name, `)` and conversion character sit in the text |
| Core.Findall | apihangar/core.py:42-43 | every extracted placeholder has a non-empty name of name characters and one of the conversions `s`, `d`, `l`, `a` |
| Core.FindallPlaceholder | apihangar/core.py:42-43 | a placeholder at the head of the text is extracted first, and the scan resumes right after it |
| Core.FindallLiteral | apihangar/core.py:42-43 | a literal without `%(` contributes no placeholder, unless it ends in `%` and the text after it begins with `(` |
| Core.FindallLayout | apihangar/core.py:42-43 | text made of literals without `%(` (so `%%` escapes are allowed) interleaved with placeholders yields exactly those placeholders, in order |
| Core.FindallLayoutStep | apihangar/core.py:42-43 | a literal without `%(` followed by a placeholder contributes exactly that placeholder, and the scan goes on after it |
| Core.FindallNoOpening | apihangar/core.py:42-43 | text without `%(` yields no placeholder |
| Core.FindallOtherConversion | apihangar/core.py:43 | `%(name)` followed by a character outside `sdla` is not a placeholder, and scanning goes on at that character |
| Core.StringVariables | apihangar/core.py:37-47 | one variable per extracted placeholder |
| Core.StringGetVariables | apihangar/core.py:44-47 | the loop builds exactly the variable list |
| Core.StringVariablesLayout | apihangar/core.py:30-35 | the k-th variable is the type tag of the k-th placeholder's conversion (`s` none, `d` `int:`, `l` `list:`, `a` `list:int:`) followed by its name |
| Core.RestoredKindIsPreferred | apihangar/core.py:19-27 | a restored tag occurs with the name in the SQL; no tag occurring there ranks before it in the order `list:int:`, `int:`, `list:`; no tag at all exactly when none occurs; `list:int:v` implies `int:v` |
| Core.TemplateGetVariables | apihangar/core.py:18-28 | one restored name per inspected variable, each the variable with its restored tag |
| Core.TemplateVariables | apihangar/core.py:9-28 | the restored list has the inspector's length |
| Core.TemplateVariablesListInt | apihangar/core.py:20-21 | a name whose `list:int:` tag occurs anywhere in the SQL, as in `{{ list:int:ids }}`, is restored with that tag |
| Core.RestoredKindOfPrefix | apihangar/core.py:22-23 | with no `list:int:v` in the SQL, a name v that follows `int:` anywhere, even as the start of a longer name, is restored as `int:v` |
| Core.StripTags | apihangar/core.py:15 | stripping tags never lengthens the SQL |
| Core.StripTagsUntagged | apihangar/core.py:15 | SQL without tags is unchanged |
| Core.StripTagsNotTagFree | apihangar/core.py:58 | one pass of `replace` can create a new `int:` (`inint:t:` gives `int:`) |
| Core.MarkerRewrite | apihangar/core.py:73 | the rewrite keeps the SQL's length |
| Core.MarkerRewriteAt | apihangar/core.py:73 | a character is turned into `r` exactly when it is `l` or `a` right after `)`; every other character is kept |
| Core.MarkerRewriteClean | apihangar/core.py:73 | the rewritten SQL holds no `)l` and no `)a` |
| Core.NonBlankLines | apihangar/core.py:85-86 | the kept lines are non-empty and stripped; none are kept exactly when all lines are blank |
| Core.NonBlankLinesConcat | apihangar/core.py:85-86 | the filter works line by line and keeps the order: the kept lines of a concatenation are the kept lines of each part |
| Core.NonBlankLinesOne | apihangar/core.py:85-86 | a single line is dropped exactly when it is blank, and otherwise kept stripped |
| Core.NonBlankLinesKeepsTrimmed | apihangar/core.py:85-86 | lines that are already stripped and not empty are all kept unchanged |
| Core.CollapseJoinedLines | apihangar/core.py:85-86 | lines without line breaks, joined with newlines, collapse to their stripped non-blank lines joined with single spaces |
| Core.CollapseTrimmedLines | apihangar/core.py:85-86 | stripped non-empty lines joined with newlines collapse to the same lines joined with spaces |
| Core.CollapsePaddedLines | apihangar/core.py:85-86 | a padded line, a blank line and a line collapse to the two lines' text joined by one space |
| Core.CollapseLinesShape | apihangar/core.py:85-86 | the collapsed SQL holds none of the characters `unicode.splitlines` breaks at and has no surrounding whitespace; it is empty exactly when the SQL is all whitespace |
| Core.NonBlankLinesChars | apihangar/core.py:85-86 | stripping and dropping lines introduces no line-break character |
| Core.SplitSpace | apihangar/core.py:85-86 | text is all whitespace exactly when every line of it is blank |
| Core.CollapseLinesIdempotent | apihangar/core.py:85-86 | collapsing twice gives the same result as collapsing once |
| Core.CommaFixOnlyDeletesCommas | apihangar/core.py:89 | the 1-tuple fix never lengthens the SQL and removes nothing but commas |
| Core.CommaFixOneTuple | apihangar/core.py:87-89 | `('foo',)` becomes `('foo')` |
| Core.CommaFixNotIdempotent | apihangar/core.py:89 | a single pass can leave a `,)`: `,,)` becomes `,)`, and only a second pass gives `)` |
| Core.VariablesSpec | apihangar/core.py:49-52 | string queries get the extracted list; template queries succeed exactly when inspection succeeds, each inspected name with its restored tag, and otherwise raise what inspection raised |
| Core.GetVariables | apihangar/models.py:66-69 | the method returns exactly the variable list |
| Core.RenderSql | apihangar/core.py:76-79 | templates render the tag-stripped SQL; otherwise the marker-rewritten SQL is interpolated |
| Core.NormalizeSql | apihangar/core.py:85-89 | the SQL sent to the database has no line break and is no longer than the collapsed lines |
| Core.Executed | apihangar/core.py:81-98 | a missing connection raises `ConnectionDoesNotExist`; a success sent line-break-free SQL that the database accepted; a single row comes back exactly when `return_one` is set |
| Core.Run | apihangar/core.py:81-98 | the method's result is the specified run |
| Core.RunRows | apihangar/core.py:91-95 | with a cursor, all rows come back as dicts, one per row; with `return_one`, the first row comes back, or `IndexError` when there are no rows |
| Models.CacheKey | apihangar/models.py:177 | every key starts with `apihangar.endpoint_query.` |
| Models.CacheKeyInjective | apihangar/models.py:177 | two keys are equal exactly when the ids and the digests are |
| Models.CachedRun | apihangar/models.py:171-184 | no timeout means the cache is untouched; a hit returns the stored value; a miss runs once and stores a success with the timeout; no other key changes |
| Models.CachedRunRepeats | apihangar/models.py:178-183 | after a successful cached run, running again returns the same value without consulting the database |
| Models.CachedRunSeparate | apihangar/models.py:177-183 | a run never touches the entry of a binding with another id |
| Models.Cache.constructor | apihangar/models.py:175 | a fresh cache is empty |
| Models.Cache.Get | apihangar/models.py:178 | a value is found exactly when an entry is stored under the key |
| Models.Cache.Set | apihangar/models.py:183 | the entry is stored with its timeout and read back |
| Models.RunEndpointQuery | apihangar/models.py:171-184 | the result and the new cache contents are the specified cached run on the old contents |
| Models.Merged | apihangar/models.py:144-150 | both maps have exactly the keys of the outputs |
| Models.MergedLast | apihangar/models.py:148-149 | a key's entry holds the last output filed under it |
| Models.RunAll | apihangar/models.py:146-149 | a successful run yields one output per binding |
| Models.RunAllKeys | apihangar/models.py:146-149 | a successful run yields one output per binding, in binding order, each labelled with its binding's key |
| Models.RunAllPrefix | apihangar/models.py:146-149 | one more binding either leaves an earlier failure as it was or runs that binding on the cache the earlier ones left, appending its output or stopping with its error |
| Models.EndpointRun | apihangar/models.py:143-150 | on success, both maps have exactly the bindings' keys |
| Models.EndpointRunUncached | apihangar/models.py:146-149 | without caching, a key's entry holds the run of the last binding under that key |
| Models.RunAllUncachedAt | apihangar/models.py:146-147 | without caching, the store is untouched and each output is the query's run |
| Models.RunAllUncachedStore | apihangar/models.py:171-173 | bindings without a cache timeout never touch the cache |
| Models.RunEndpoint | apihangar/models.py:143-150 | the loop's result and cache are the specified endpoint run |
| Models.FailureStops | apihangar/models.py:147 | once a binding fails, the endpoint run fails with that error and later bindings never run |
| Models.LoadParams | apihangar/models.py:193-197 | a `KeyError` or `ValueError` from parsing gives `{}`; other outcomes pass through; a missing text raises `TypeError` |
| Views.DecodeKey | apihangar/views.py:45-61 | the decoded tag followed by the decoded name is the key |
| Views.DecodeKeyRoundTrip | apihangar/views.py:45-55 | a tagged name decodes to its tag and name when the name does not itself begin with a tag the decoder checks first |
| Views.DecodeKeyIntThenList | apihangar/views.py:55-57 | `int:list:x` decodes as an integer named `list:x`, not as a list |
| Views.StringVariablesDecode | apihangar/views.py:45-57 | each name the form lists for a string query decodes back to its placeholder's kind and name |
| Views.NonEmptyPieces | apihangar/views.py:49 | every kept piece is a non-empty piece of the input, and no more are kept than given |
| Views.NonEmptyPiecesKeepsAll | apihangar/views.py:49 | with no empty piece, every piece is kept |
| Views.NonEmptyPiecesConcat | apihangar/views.py:49 | the filter works piece by piece and keeps the order: the kept pieces of a concatenation are the kept pieces of each part |
| Views.NonEmptyPiecesOne | apihangar/views.py:49 | a single piece is dropped exactly when it is empty |
| Views.PiecesSkipEmpty | apihangar/views.py:49 | `a,,b,` has exactly the pieces a and b once empty pieces are dropped |
| Views.IntListAssigns | apihangar/views.py:47-49 | a `list:int:` pair whose kept pieces all parse assigns the tuple of those integers to the name |
| Views.IntListSkipsEmpty | apihangar/views.py:47-49 | `list:int:n=1,,2,` assigns `(1, 2)`: empty pieces are skipped, for any two numbers |
| Views.StrippedPieces | apihangar/views.py:52 | the list elements are the stripped non-empty comma pieces |
| Views.ParseInts | apihangar/views.py:48-49 | all pieces parse after stripping, in order, or the list fails exactly when some piece does not |
| Views.ActionSpec | apihangar/views.py:45-61 | an assignment goes to the decoded name with a value of the decoded kind; a bad `int:` value is skipped; a bad `list:int:` element raises `ValueError` |
| Views.IntListRoundTrip | apihangar/views.py:47-49 | a comma-joined list of integers decodes to the tuple of those integers |
| Views.IntToStringChars | apihangar/views.py:49 | an integer's text is non-empty, stripped and comma-free |
| Views.StringListRoundTrip | apihangar/views.py:50-52 | a comma-joined list of stripped, non-empty, comma-free strings decodes to the tuple of those strings |
| Views.ListAction | apihangar/views.py:50-52 | a `list:` key assigns the tuple of stripped non-empty pieces |
| Views.PiecesOfJoin | apihangar/views.py:49 | splitting a comma join of non-empty comma-free pieces gives the pieces back |
| Views.BlankPieceKept | apihangar/views.py:49-52 | a whitespace piece is kept and becomes an empty string |
| Views.IntRoundTrip | apihangar/views.py:55-57 | an `int:` key whose value is an integer padded with whitespace assigns that integer |
| Views.IntNoBreakSpace | apihangar/views.py:55-57 | `int:n` with the value no-break space then `5` assigns 5, since `int()` of `unicode` skips Unicode whitespace |
| Views.TextNoBreakSpace | apihangar/views.py:60-61 | `n` with the value no-break space then `a` assigns `a`, since `unicode.strip()` removes it |
| Views.IntSignGap | apihangar/views.py:55-57 | `int:n=- 5` assigns -5 |
| Views.Assignments | apihangar/views.py:41-61 | there are at most as many assignments as GET pairs |
| Views.SomeRaiseAt | apihangar/views.py:48-49 | a raising pair makes the decoding raise |
| Views.SomeRaiseIndex | apihangar/views.py:48-49 | a raising decoding has a pair that raises |
| Views.Decoded | apihangar/views.py:40-61 | decoding can only fail with `ValueError` |
| Views.DecodedSpec | apihangar/views.py:40-61 | decoding fails exactly when some pair raises; otherwise the parameters are the assignments, the last assignment to a name winning |
| Views.DecodedFailureStops | apihangar/views.py:48-49 | once a prefix raises, the rest of the pairs do not matter |
| Views.DecodedPrefix | apihangar/views.py:41-61 | decoding one more pair applies that pair's action to the parameters decoded so far |
| Views.SkippedPairChangesNothing | apihangar/views.py:56-59 | a skipped `int:` pair leaves the parameters as they were |
| Views.DecodeParams | apihangar/views.py:40-61 | the loop's result is the specified decoding |
| Views.FormVariables | apihangar/views.py:16-18 | success exactly when every query lists its variables; the set is the union of the lists; otherwise the first failing query's error |
| Views.UnionStep | apihangar/views.py:17-18 | adding one query's variables to the union of the earlier ones gives the union up to that query |
| Utils.LookupFound | apihangar/utils.py:28 | a key is found exactly when it is among the keys |
| Utils.InsertSpec | apihangar/utils.py:33-35 | a new key is appended at the end, an existing key keeps its place; the key maps to the new value; every other key is unchanged |
| Utils.InsertKeys | apihangar/utils.py:33-35 | the keys after an insertion are the old keys, with the new key appended when it was absent |
| Utils.InsertLookup | apihangar/utils.py:33-35 | after an insertion the key maps to the new value and every other key keeps its value |
| Utils.Dedup | apihangar/utils.py:33-35 | the keys are distinct and are exactly the keys given |
| Utils.FromPairs | apihangar/utils.py:28 | the dict has each key once, in order of first appearance, with the last value given for it |
| Utils.LastValueAt | apihangar/utils.py:28 | the value of a key is the one in its last pair |
| Utils.FromDistinctPairs | apihangar/utils.py:28 | pairs with distinct keys form a dict as they are |
| Utils.InsertNewKey | apihangar/utils.py:33-35 | inserting a new key appends the pair |
| Utils.FromPairsValues | apihangar/utils.py:33-35 | a property of every given value holds of every value in the dict |
| Utils.InsertValues | apihangar/utils.py:33-35 | inserting keeps a property that holds of every value |
| Utils.ColumnNames | apihangar/utils.py:26-28 | one name per column: the first field of its description |
| Utils.Zip | apihangar/utils.py:28 | pairs up to the shorter length |
| Utils.DictFetchAll | apihangar/utils.py:24-30 | one dict per fetched row |
| Utils.DictFetchAllRow | apihangar/utils.py:24-30 | a row's dict has the column names in order without repeats, and a column whose name is not repeated later maps to that row's cell |
| Utils.DictFetchAllDistinct | apihangar/utils.py:24-30 | with distinct column names, a row's dict is the column names zipped with the row |
| Utils.Tupled | apihangar/utils.py:33-34 | lists become tuples with the same items; other values are unchanged |
| Utils.SortedDictWithTuples | apihangar/utils.py:32-35 | the dict has each key once, mapped to its last value with lists turned into tuples; no value is a list |
| Utils.TupledLastValue | apihangar/utils.py:33-35 | turning lists into tuples commutes with taking a key's last value |
| Utils.CheckPermission | apihangar/utils.py:69-73 | no denial exactly when the user belongs to every required group; otherwise the first required group that is missing |
| Utils.CheckPermissionAsWrittenDeniesMembers | apihangar/utils.py:72-73 | as written, any non-empty requirement denies with the first group's name |
| Utils.CheckPermissionAsWrittenExample | apihangar/utils.py:72-73 | a member of `staff` is denied `staff` as written, though that user meets the requirement |
| PyStr.ReplaceAbsent | apihangar/core.py:15 | `str.replace` leaves text without the pattern unchanged |
| PyStr.ReplacePairAt | apihangar/core.py:73 | replacing `ab` by `az` keeps the length and changes exactly the `b` characters that follow an `a` |
| PyStr.ReplaceKeepsOthers | apihangar/core.py:73 | a replacement that differs from its pattern only in one character leaves the text unchanged once that character is removed |
| PyStr.Strip | apihangar/views.py:52 | the stripped text has no surrounding Unicode whitespace, is empty exactly when the text is all whitespace, and leaves stripped text as it is |
| PyStr.StripPadded | apihangar/views.py:61 | stripping removes exactly the whitespace padding around a stripped non-empty text |
| PyStr.JoinSplit | apihangar/views.py:49 | joining the pieces of a split on one character with that character gives the text back |
| PyStr.SplitJoin | apihangar/views.py:49 | splitting at a set of separators a join, with one of them, of pieces free of all of them gives the pieces back |
| PyStr.ParseIntRoundTrip | apihangar/views.py:57 | `int()` reads an integer's decimal text back, whitespace padding included |
| PyStr.ParseIntSignGap | apihangar/views.py:57 | for any whitespace `pre`, `gap`, `post` and sign `-` or `+`, `int(pre + sign + gap + str(n) + post)` is `-n` or `n`: the sign may be separated from the digits |
| Registry.Endpoint.constructor | apihangar/registry.py:28-33 | the endpoint holds the given name, description, url, queries and permissions |
| Registry.Endpoint.RequiredPermissions | apihangar/registry.py:44-45 | the permissions given at construction |
| Registry.Endpoint.Run | apihangar/registry.py:35-42 | success exactly when every query runs; both maps then have the endpoint's query keys, each with that query's SQL and rows; otherwise the error of some failing query |
| Registry.Registry.constructor | apihangar/registry.py:47 | the registry starts empty |
| Registry.Registry.RegisterEndpoint | apihangar/registry.py:49-50 | a new endpoint with the given fields is filed under the url, replacing any earlier one; every other url keeps its endpoint |

## Left out

- Database access is a parameter. `Core.Engine.hasConnection` and `Core.Engine.execute` stand for Django's connection lookup and its cursor. The SQL that `run` returns is the normalised text sent to the database. The `queries.pop(0)` debug log is taken to hold exactly that text. In Django it is a dict with `sql` and `time` entries, and it is filled only with `DEBUG` on; otherwise the log is empty and `pop(0)` raises `IndexError`, which the model does not capture. The source opens the cursor (`core.py:82`) before it renders (`core.py:84`), so a database that cannot be reached fails before any render error. `Core.Executed` checks only that the connection alias exists before rendering and places every other database error at `execute`, after rendering.
- The Django template engine and the template inspector (`djtemplateinspector`) are the parameters `render` and `inspect`. The temporary `html.escape` patch around rendering is not modelled.
- Python `%` interpolation of the string path is the parameter `interpolate`. The same goes for the `r` conversion that the marker rewrite relies on.
- Cache expiry is not modelled: an entry stays until it is overwritten. The cache backend selected by `APIHANGAR_CACHE` is left out, and so is the md5 digest of the JSON-encoded parameters, which is the parameter `digest`.
- JSON parsing in `load_params` is the parameter `parse`. A missing stored text (`None`) is taken to raise `TypeError`, as `json.loads` does.
- Models.LoadParams: models the intended `json_loads`. As written, `utils.py:46` passes `object_pairs_hooks`, which `json.loads` rejects with `TypeError`, so every call would raise.
- HTTP handling is not modelled: `allow_http`, `render_response`, JSON/JSONP/HTML output, `urllib.unquote` and `unescape`. GET keys and values reach `Views.DecodeParams` already unquoted, as pairs.
- `str()` of a `unicode` value, which can raise `UnicodeEncodeError` for non-ASCII text, is treated as the identity.
- `unicode.splitlines` is modelled as splitting at each of its line-break characters, with `\r\n` counted as two breaks. The extra empty line this gives is dropped with the other blank lines, so the collapsed SQL is the same.
- PyStr.ParseInt: `int()` of a `unicode` value also maps decimal digits of other scripts (Arabic-Indic, fullwidth and so on) to ASCII digits; the model recognises only `0`-`9`, so such a value is taken not to parse. Any other non-ASCII character makes `int()` raise `UnicodeEncodeError`, a `ValueError`, which the model gives as not parsing too.
- Utils.CheckPermission: the views call `check_permission` with a stored `Endpoint` or `PrebuiltView`, and neither defines `get_required_permissions` (only `registry.Endpoint` does), so as written those calls raise `AttributeError` at `utils.py:71` before any group is compared. The model takes the required permissions as a given list, as a registry endpoint supplies them.
- Database values are `Utils.PyValue`. Floats, decimals and dates have no case of their own.
- `Core.Run`: the model matches the `Query.run` of models.py. The registry's `Query.run` passes a `return_list` argument that `core.run` does not accept, so as written it would raise `TypeError`. `Registry.Endpoint.Run` models the evidently intended call without it.
- `views.execute_view` renders with an undefined `response_type` and would raise `NameError`. That view is not modelled beyond `Models.LoadParams` and the endpoint run it calls.
- `SortedDict` is never imported in `utils.py`. It is modelled as Django's insertion-ordered dict.
- `core.py:46` reads `query._format_char_to_type`, which the registry's `Query` does not have. The model uses the module-level table at `core.py:30-35`, which the `models.py` copy holds as a class attribute.
- The order in which Python 2 iterates a dict (GET keys, the registry's query map) is arbitrary. `Views.DecodeParams` takes the pairs in a given order. `Registry.Endpoint.Run` picks any order and states a result that holds for all of them.
- The database's `Endpoint.run` iterates the bindings in query-set order, which is the order of the `bindings` sequence.
- Core.RunRows: the row-level result is stated for a given cursor; whether the database accepts the SQL is up to the `execute` parameter.
- Admin registration, URL routing and `setup.py` are outside the core.

## Findings

| source | as written | input that shows it | evidently intended | confidence | as-written member | corrected member |
|---|---|---|---|---|---|---|
| apihangar/utils.py:71-73 | tests whether the permission object is in the list of the user's group names; that never holds, so the first requirement always denies | a `registry.Endpoint` registered with one permission object for group `staff`, checked for a user in `staff`: denied with `staff` | test whether the permission's group name is among the user's groups, and deny with the first one that is not | medium, not executed | Utils.CheckPermissionAsWrittenExample | Utils.CheckPermission |
