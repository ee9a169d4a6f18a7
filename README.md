# Face search matching core, modelled in Dafny

FaceRecognition is a FastAPI service. It stores one face embedding per
registered person in a Milvus vector collection and answers a search with the
registered people whose faces are most similar to a query face. This project
models the part of the service that turns what Milvus returns into the list
the user sees:

- **Settings** (`Config`, config.py): the defaults, `is_local_mode` and
  `embedding_dimension`.
- **Validators** (`UserModel`, user.py): the `User` validators for name and
  registration number, with their field length bounds. Also the bounds that
  `UserSearchResult` enforces when it is constructed.
- **Result normalisation** (`MilvusResults`, milvus_service.py): the distance
  normaliser, and the processing of local and remote search hits into results.
  Each hit is kept, or dropped when construction raises or it is under the
  threshold.
- **Service object** (`MilvusService`, milvus_service.py): construction,
  create-if-absent set-up of the local or the remote backend, insertion, search
  dispatch, and the confirmation-guarded drop-and-recreate.
- **Search endpoint** (`Search`, search.py): the `top_k` bounds, the
  no-face (400) and exception (500) control flow, and the final stable sort by
  similarity.

How Python behaviour is written out:

- Scores and distances are `real`.
- Strings are `seq<char>`. `str.strip()` uses Python's whitespace code points.
- `re.match(...$)` is modelled with its acceptance of one trailing newline.
- `str.upper()` and `str.lower()` are modelled on ASCII letters.
- The service object is a `class`. Its backend collection is a ghost sequence
  of records.
- Whether a backend call raises is passed in as a parameter: a fault, a flag,
  or a reply function.

### Where the code and its comments disagree

- **The normaliser:** `_normalize_distance` (milvus_service.py:275-341) clamps
  the raw value to [0, 2] and computes `max(0, min(1, 1 - raw))`. It then swaps
  the pair (line 340), so the value bound to `cosine_distance` is the
  similarity and the value bound to `similarity_score` is the clamped raw
  value. The docstring examples (lines 299-308) show the pair before the swap.
  The model follows the code. `MilvusResults.DocumentedExamplesDoNotHold`
  proves the documented pair is never returned, except when the clamped raw
  value is 0.5.
- **No dimension check:** nothing checks an embedding's length against the
  collection dimension before inserting or searching, so
  `MilvusService.Service.InsertEmbedding` takes the embedding as given.

## Model

| member | source | states |
|---|---|---|
| Config.Lower | backend/app/core/config.py:40 | `str.lower()` keeps the length and maps each character through ASCII lower-casing |
| Config.IsLocalMode | backend/app/core/config.py:37-40 | `milvus_mode.lower() == "local"` over ASCII lower-casing; local mode needs a five-character mode string (exact characterisation in `Config.IsLocalModeIff`) |
| Config.IsLocalModeIff | backend/app/core/config.py:37-40 | local mode holds exactly when the mode string has five characters, each the lower- or upper-case letter of "local" at its position |
| Config.ModeExamples | backend/app/core/config.py:37-40 | "LoCaL" selects local; "remote", "locl" and " local" select remote |
| Config.EmbeddingDimension | backend/app/core/config.py:42-54 | the dimension is one of 128, 512, 2622, 4096; a model in the table gets its table size, and every name other than the seven table names gets 512 |
| Config.EmbeddingDimensionTable | backend/app/core/config.py:42-54 | each of the seven models gets its table size; an unknown model, including the differently cased "facenet", gets 512 |
| Config.CollectionName | backend/app/services/milvus_service.py:23 | the collection name starts with "face_embeddings_" and continues with exactly the model name |
| Config.Defaults | backend/app/core/config.py:19-28 | the defaults select local mode, host "localhost", port 19530, local path "data/milvus_faces.db" and Facenet512; this gives 512 dimensions, collection "face_embeddings_Facenet512", threshold 0.95 and five results |
| UserModel.LeadingSpaces | backend/app/models/user.py:17-19 | the count of leading characters that are all whitespace and stop at the first non-space character |
| UserModel.TrailingSpaces | backend/app/models/user.py:17-19 | the count of trailing characters that are all whitespace and stop at the last non-space character |
| UserModel.StripStart | backend/app/models/user.py:17-19 | the result is a suffix of the input, does not start with whitespace, and only whitespace was removed |
| UserModel.StripEnd | backend/app/models/user.py:17-19 | the result is a prefix of the input, does not end with whitespace, and only whitespace was removed |
| UserModel.Strip | backend/app/models/user.py:17-19 | `str.strip()`: the result is no longer than the input and has no whitespace at either end (the middle of the input by `UserModel.StripIsMiddle`) |
| UserModel.StripIsMiddle | backend/app/models/user.py:17-19 | `strip()` returns the middle of the input between a whitespace-only prefix and a whitespace-only suffix |
| UserModel.StripEmptyIff | backend/app/models/user.py:17 | the stripped string is empty exactly when the input is all whitespace |
| UserModel.StripIdempotent | backend/app/models/user.py:19 | stripping twice equals stripping once |
| UserModel.ValidateName | backend/app/models/user.py:14-19 | accepted exactly when the name is not all whitespace; the stored name is non-empty with no whitespace at either end; otherwise the error is the blank-name error |
| UserModel.ParseName | backend/app/models/user.py:11-19 | accepted exactly when the submitted length is 2..100 and it is not all whitespace; the stored name is the stripped input, of length 1..100 |
| UserModel.ValidateNameIdempotent | backend/app/models/user.py:14-19 | validating a validated name returns it unchanged |
| UserModel.PaddedOneLetterName | backend/app/models/user.py:11-19 | "  a " is stored as "a" while "a" is refused as too short, because the length check runs before the strip |
| UserModel.ClassRun | backend/app/models/user.py:24 | the greedy run of `[A-Za-z0-9\-_]` characters at the start of the string is maximal |
| UserModel.MatchesRegistrationPattern | backend/app/models/user.py:24 | `re.match(r'^[A-Za-z0-9\-_]+$', v)`: a greedy class run of at least one character, then the end or a final newline; a match starts with a class character (exact characterisation in `UserModel.MatchesRegistrationPatternIff`) |
| UserModel.MatchesRegistrationPatternIff | backend/app/models/user.py:24 | `re.match` with `^…+$` accepts exactly the non-empty class strings, and those followed by a single newline |
| UserModel.Upper | backend/app/models/user.py:26 | upper-casing keeps the length and maps each character through ASCII upper-casing |
| UserModel.ValidateRegistrationNumber | backend/app/models/user.py:21-26 | accepted exactly when the pattern matches; the stored value has the same length and no lower-case ASCII letter; otherwise the error is the bad-characters error |
| UserModel.ParseRegistrationNumber | backend/app/models/user.py:12-26 | accepted exactly when the length is 3..50 and the pattern matches; the stored value keeps the length |
| UserModel.UpperKeepsPattern | backend/app/models/user.py:24-26 | upper-casing a matching registration number keeps it matching |
| UserModel.StoredRegistrationMatches | backend/app/models/user.py:21-26 | the stored registration number is the upper-cased input, as long as it, and still matches the pattern |
| UserModel.ParseRegistrationIdempotent | backend/app/models/user.py:12-26 | submitting a stored registration number again stores the same string |
| UserModel.ValidateRegistrationIdempotent | backend/app/models/user.py:21-26 | validating a validated registration number returns it unchanged |
| UserModel.TrailingNewlineAccepted | backend/app/models/user.py:24-26 | "ab1\n" is accepted and stored as "AB1\n"; "ab1\n\n" and "ab 1" are refused |
| UserModel.ValidateRegistrationNumberStrict | backend/app/models/user.py:24-25 | accepted exactly when the value is a non-empty string of letters, digits, hyphens and underscores; the stored value is all class characters and has no lower-case letter |
| UserModel.StrictRefusesTrailingNewline | backend/app/models/user.py:24-25 | the validator as written accepts "ab1\n"; the strict one refuses it |
| UserModel.NewSearchResult | backend/app/models/user.py:28-35 | construction fails exactly when the name or registration number is missing, the similarity is outside [0, 1], or the distance is negative; otherwise the result holds exactly the given name, registration number, score and distance |
| MilvusResults.ClampRaw | backend/app/services/milvus_service.py:311-324 | a raw value below 0 becomes 0, above 2 becomes 2, and is otherwise unchanged |
| MilvusResults.NormalizeDistance | backend/app/services/milvus_service.py:275-341 | the value bound to the distance is in [0, 1] and the value bound to the similarity is the clamped raw value in [0, 2]; the two sum to 1 when the raw value is at most 1, and the first is 0 from 1 upwards |
| MilvusResults.NormalizeDistanceExamples | backend/app/services/milvus_service.py:275-341 | 0.0 ↦ (1.0, 0.0), 0.6406 ↦ (0.3594, 0.6406), 1.0 ↦ (0.0, 1.0), -0.3 ↦ (1.0, 0.0), 2.7 ↦ (0.0, 2.0) |
| MilvusResults.DocumentedExamplesDoNotHold | backend/app/services/milvus_service.py:299-341 | the pair returned is never the documented (raw, 1 - raw) pair unless the clamped raw value is 0.5 |
| MilvusResults.ConvertHit | backend/app/services/milvus_service.py:211-271 | a kept hit is within the result bounds, at least the threshold, with distance at most 2, and carries the hit's own name and registration number |
| MilvusResults.LocalHitKeptIff | backend/app/services/milvus_service.py:211-233 | a local hit is kept exactly when its score (default 0.0) is at least the threshold and in [0, 1] and both fields are present; it then has distance 2·(1 - score) |
| MilvusResults.RemoteHitKeptIff | backend/app/services/milvus_service.py:246-271 | a remote hit is kept exactly when it has a distance, both fields, and a clamped raw value that is at least the threshold and at most 1; the result's similarity is the clamped raw value and its distance is 1 minus it |
| MilvusResults.RemoteConversion | backend/app/services/milvus_service.py:255-268 | a remote hit with a distance converts through the normaliser's pair, filtered by the threshold and by construction |
| MilvusResults.RemoteHitAboveOneDropped | backend/app/services/milvus_service.py:255-340 | a remote hit whose raw distance exceeds 1 is always dropped, because the swapped similarity then exceeds 1 and construction fails |
| MilvusResults.Kept | backend/app/services/milvus_service.py:206-273 | what one loop over hits emits: the converted hits that are kept, in hit order (its properties are the lemmas below) |
| MilvusResults.KeptInBounds | backend/app/services/milvus_service.py:206-273 | no more results than hits; every result is within the bounds and at least the threshold |
| MilvusResults.KeptIsSubsequence | backend/app/services/milvus_service.py:211-271 | the results are the conversions of exactly those hits that convert, at strictly increasing positions: input order is kept |
| MilvusResults.KeptAppend | backend/app/services/milvus_service.py:245-271 | processing two lists of hits one after the other gives the concatenation of their results |
| MilvusResults.RemoteKeptComplements | backend/app/services/milvus_service.py:255-268 | every remote result has distance + similarity = 1 |
| MilvusResults.Processed | backend/app/services/milvus_service.py:200-273 | local: the kept hits of the first row, nothing for an empty reply; remote: the kept hits of all rows in row order (its properties are the lemmas below) |
| MilvusResults.ProcessedInBounds | backend/app/services/milvus_service.py:200-273 | every processed result is within the bounds, at least the threshold, with distance at most 2 |
| MilvusResults.LocalReadsFirstRowOnly | backend/app/services/milvus_service.py:208-211 | local processing depends on the first row of the reply only |
| MilvusResults.RemoteRowsConcatenate | backend/app/services/milvus_service.py:245-246 | remote processing of one more row appends that row's results |
| MilvusResults.ProcessLocalResults | backend/app/services/milvus_service.py:200-235 | the loop returns exactly the specification of local processing: nothing for an empty reply or first row, otherwise the kept hits of the first row in order, all within bounds and at least the threshold |
| MilvusResults.AppendRemoteRow | backend/app/services/milvus_service.py:246-271 | the inner loop appends exactly the kept hits of one row, in order |
| MilvusResults.ProcessRemoteResults | backend/app/services/milvus_service.py:237-273 | the nested loops return exactly the kept hits of all rows in order; each is within bounds and at least the threshold, and its distance and similarity sum to 1 |
| MilvusService.EffectiveTopK | backend/app/services/milvus_service.py:163 | `top_k or default`: None and 0 take the default; any other value, a negative one included, is used as given |
| MilvusService.Service.constructor | backend/app/services/milvus_service.py:21-28 | the mode, collection name, dimension, threshold and default `top_k` follow the settings; the collection exists and can serve, keeping any records it already held; in local mode there is no collection handle |
| MilvusService.Service.InitializeConnection | backend/app/services/milvus_service.py:30-44 | set-up returns normally exactly when no step raises; a failure leaves what the earlier steps did: the records never change, the collection exists afterwards unless connecting or creating failed, the handle is set unless connecting failed or an absent collection could not be created, and it is loaded only after a successful remote run |
| MilvusService.Service.SetupLocal | backend/app/services/milvus_service.py:46-67 | opens the client, then creates the collection only when it is absent; a failure to open the client changes nothing; a failed creation leaves the collection absent; the records never change |
| MilvusService.Service.SetupRemote | backend/app/services/milvus_service.py:69-109 | connects, creates the collection with its index only when absent, takes a handle and loads it; a failed connection changes nothing; a failed creation leaves it absent; a failed index build leaves it created, with a handle, not loaded; a failed load leaves it not loaded |
| MilvusService.Service.InsertEmbedding | backend/app/services/milvus_service.py:111-150 | true, with exactly one record appended, when the collection exists and the backend accepts; otherwise false and nothing changes |
| MilvusService.Service.SearchOutcome | backend/app/services/milvus_service.py:152-198 | no results when the collection cannot serve or the backend raises; every result is within bounds, at least the threshold, with distance at most 2 |
| MilvusService.Service.SearchSimilarEmbeddings | backend/app/services/milvus_service.py:152-198 | dispatches by mode to local or remote processing, with the effective `top_k`; an exception gives [] |
| MilvusService.Service.ClearAllData | backend/app/services/milvus_service.py:379-420 | without confirmation it refuses and changes nothing; if asking for the collection raises, false and nothing changes; if the drop raises, false with the collection and its records kept but a remote one released (not loaded); otherwise the records are gone and the result is whether re-initialisation succeeded: the collection is recreated empty when it succeeds, and a failed re-initialisation leaves what its failing step leaves (no collection when connecting or creating raised, an unloaded one when indexing or loading raised) |
| MilvusService.Service.ClearAllDataRecovering | backend/app/services/milvus_service.py:379-420 | as `clear_all_data`, but a failed drop re-runs the initialisation: the collection and its records are kept and it can serve again whenever that initialisation succeeds; on every other confirmed path the records are gone, and the collection is recreated empty when re-initialisation succeeds or left as its failing step leaves it |
| MilvusService.SearchAfterFailedDrop | backend/app/services/milvus_service.py:398-420 | on a remote server, after a confirmed clear whose drop raises, the collection and records are still there and every search returns nothing |
| MilvusService.SearchAfterRecoveredDrop | backend/app/services/milvus_service.py:398-420 | with the recovering clear, the same failure leaves the collection ready, and a search returns the processed hits of the backend's reply |
| Search.InsertBySimilarity | backend/app/api/endpoints/search.py:81 | inserting into a list sorted by similarity keeps it sorted and adds exactly that element |
| Search.RankBySimilarity | backend/app/api/endpoints/search.py:81 | the ranking is sorted by similarity, highest first, and is a permutation of its input |
| Search.WithScoreAppend | backend/app/api/endpoints/search.py:81 | the results with a given similarity in a concatenation are those of each part, in order |
| Search.InsertIsStable | backend/app/api/endpoints/search.py:81 | an inserted element goes after every element of equal similarity |
| Search.RankIsStable | backend/app/api/endpoints/search.py:81 | for every similarity value, the ranking keeps the input's relative order among results with that value (Python's sort is stable) |
| Search.StableSortIsUnique | backend/app/api/endpoints/search.py:81 | any sorted, stable reordering of the input equals the ranking |
| Search.SortedWithSameScoresAreEqual | backend/app/api/endpoints/search.py:81 | two lists sorted by similarity with the same results per similarity value are equal |
| Search.AcceptedTopK | backend/app/api/endpoints/search.py:23 | `top_k` defaults to 5 and is accepted exactly when it is in 1..20 |
| Search.SearchUser | backend/app/api/endpoints/search.py:63-92 | `top_k` out of range is rejected; no face gives 400; a valid request with a face gives 500 when there is no collection to describe (always in local mode), and otherwise the ranked service output |
| Search.SearchUserWithoutDescribe | backend/app/api/endpoints/search.py:63-92 | every valid request with a face is answered with the ranked service output |
| Search.FoundIsRankedServiceOutput | backend/app/api/endpoints/search.py:73-83 | the answer is a sorted, stable permutation of the service's results, each within bounds and at least the threshold |

## Left out

- I/O is not modelled: logging, the `print` at search.py:71 (only the `describe()` call that can raise is kept), temporary files, reading the upload and the directory creation for the local database.
- The `image/` content-type check (search.py:43-47) and the API-key dependency are HTTP plumbing and are not modelled.
- Face detection and embedding extraction (face_service.py) are not modelled. The extracted embedding is an optional parameter.
- pymilvus is not modelled. Cosine search, the HNSW index and how many hits come back for a limit are an oracle: a reply function from the query and the limit to hits or an exception.
- The oracle is assumed to raise when the collection is missing or, on a remote server, not loaded. Insertion is assumed to raise when the collection is missing.
- Floating point and the float32 conversion of embeddings are not modelled. Scores are exact reals.
- `get_debug_info` (milvus_service.py:343-377) only reports values and is not modelled. Its call inside `clear_all_data` is logging only.
- `MilvusService.Service.constructor`: a failure during `__init__` propagates out of the constructor. The model only covers the successful construction, so it passes `NoFault`.
- `MilvusService.Service.ClearAllData`: one failure per call is modelled. A failed `release()` is logged and the drop goes ahead, so it ends like a clean clear; a failed release followed by a failed drop is not modelled.
- `MilvusService.Service.SetupRemote`: whether a collection has an index is not tracked. A collection created without one after a failed index build is later loaded or not according to the fault parameter alone.
- `Config.Lower`: Python's `str.lower()` maps non-ASCII letters too. The model maps ASCII only; this decides the comparison with "local" exactly, because no non-ASCII character lower-cases to one of its letters.
- `UserModel.Upper`: Python's `str.upper()` and `str.lower()` map non-ASCII letters too. The model maps ASCII only; the registration pattern admits ASCII letters only.
- `Search.RankBySimilarity`: the sort is modelled on values as an insertion sort, not Python's in-place Timsort. `Search.StableSortIsUnique` shows that every stable sort by similarity gives the same list.
- No model or lemma covers an embedding-length check against the collection dimension, because the code has none.
- Concurrent requests against the shared service object are not modelled.
- The module-level singletons (`settings`, `milvus_service`) and the FastAPI dependency wiring are not modelled.
- The `describe()` outcome is reduced to whether a collection handle exists and its collection is present.

## Findings

| source | as written | input that shows it | evidently intended | confidence | as-written member | corrected member |
|---|---|---|---|---|---|---|
| backend/app/api/endpoints/search.py:71 | `milvus_service.collection.describe()` runs before every search; in local mode `collection` stays None, so the call raises and the request becomes a 500 | MILVUS_MODE=local (the default), a valid image with a face and top_k=5 | the search is answered with the ranked results | not executed | Search.SearchUser | Search.SearchUserWithoutDescribe |
| backend/app/services/milvus_service.py:398-420 | on a remote server the collection is released before it is dropped; if the drop then raises, the method returns False and leaves the collection present but released | `clear_all_data(confirm=True)` against a remote server whose `drop_collection` raises | a failed clear leaves the service able to search as before | not executed | MilvusService.SearchAfterFailedDrop | MilvusService.Service.ClearAllDataRecovering |
| backend/app/models/user.py:24 | `re.match(r'^[A-Za-z0-9\-_]+$', v)`: `$` also matches before a final newline, so a registration number ending in "\n" is accepted and stored with the newline | "ab1\n" is stored as "AB1\n" | only letters, digits, hyphen and underscore, as the error message says (a full match) | not executed | UserModel.TrailingNewlineAccepted | UserModel.ValidateRegistrationNumberStrict |
