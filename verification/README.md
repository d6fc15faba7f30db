# Cytomine task runs, image import and viewer stores — a Dafny model

This project models the core of the Cytomine platform in Dafny:

- the **app engine**: how a task run moves through its states, how run parameters are provisioned and checked, how collection parameters are laid out as storage entries, how output archives are claimed, validated and matched, and how the error table and error handler answer;
- the **core server**: temporary access tokens, the filter that authenticates them, and the task-run service that forwards provisions to the app engine;
- **PIMS**, the image server: the import of images, annotations, ontologies and metadata, the scanner that finds importable files, the request signature check, the image operations and the histogram helpers;
- the **SAM** segmentation service's window placement and box-prompt alignment;
- the **web UI**: the Pinia and Vuex stores for the current project, viewer, images, drawing, list pages and app stores, plus the annotation, token, app and task-run helpers.

The model is built from pure functions on immutable datatypes.

- Databases, file systems and HTTP peers become parameters: the records found, the entries read, and whether a request succeeded.
- Java's checked and unchecked exceptions, and Python's raised errors, become `Result`/`Option` values. Error codes and messages are copied from the source.
- Java `int` arithmetic is wrapped explicitly wherever a value can leave the 32-bit range.

Every function carries a contract that states what the result means. Lemmas relate operations to their partners: an inverse, an invariant they preserve, or an independent reference definition.

## Model

| member | source | states |
|---|---|---|
| RunLifecycle.ChangeStateToProvisioned | app-engine/src/main/java/be/cytomine/appengine/services/TaskProvisioningService.java:191-213 | The run becomes PROVISIONED exactly when every input parameter has a persisted record and every record is provisioned. Otherwise it is left untouched. |
| RunLifecycle.UpdateToProvisioned | app-engine/src/main/java/be/cytomine/appengine/services/TaskProvisioningService.java:1253-1265 | A run that is not CREATED is refused with INTERNAL_INVALID_TASK_RUN_STATE. A CREATED run is answered PROVISIONED even when it stays CREATED because an input is missing. |
| RunLifecycle.Schedule | app-engine/src/main/java/be/cytomine/appengine/services/TaskProvisioningService.java:1079-1160 | CREATED is refused as INTERNAL_NOT_PROVISIONED and every state other than PROVISIONED as invalid. Scheduling succeeds exactly for a PROVISIONED run whose before-execution matches hold and which the scheduler accepts. The only state change possible is PROVISIONED to QUEUING. |
| RunLifecycle.CollectOutputErrors | app-engine/src/main/java/be/cytomine/appengine/services/TaskProvisioningService.java:1284-1327 | The output loop throws (missing output file or CRC failure) exactly when some output aborts. Otherwise it collects exactly one parameter error per output whose validation failed. |
| RunLifecycle.UpdateToFinished | app-engine/src/main/java/be/cytomine/appengine/services/TaskProvisioningService.java:1267-1344 | Only a QUEUING run may finish, and it can only become FAILED or FINISHED. An output that is missing or whose checksum fails aborts with an internal error and leaves the run as it was; a failing after-execution match crashes. Otherwise the run ends FINISHED exactly when no output is invalid and the matches report nothing, and FAILED with a batch error listing the output errors followed by the match errors otherwise. |
| RunLifecycle.UpdateRunState | app-engine/src/main/java/be/cytomine/appengine/services/TaskProvisioningService.java:1044-1058 | An unknown run is RUN_NOT_FOUND. PROVISIONED, RUNNING and FINISHED go to their handlers; any other desired state is UNKNOWN_STATE and leaves the run alone. |
| RunLifecycle.RequestsOnlyMoveForward | app-engine/src/main/java/be/cytomine/appengine/services/TaskProvisioningService.java:1044-1344 | No desired-state request moves a run backwards or sideways. It stays where it is or takes one step along CREATED, PROVISIONED, QUEUING, FINISHED/FAILED. |
| RunLifecycle.ClaimFrom | app-engine/src/main/java/be/cytomine/appengine/services/TaskProvisioningService.java:605-675 | Finds the first remaining output that claims an archive entry, by equal name or as a path under "<name>/". It reports whether the claim is by name, the case that removes the output from the search. |
| RunLifecycle.ClaimEntry | app-engine/src/main/java/be/cytomine/appengine/services/TaskProvisioningService.java:602-685 | An entry no output claims is reported (INTERNAL_UNKNOWN_OUTPUT). Otherwise the remaining outputs are unchanged, or lose exactly the output named like the entry. |
| RunLifecycle.ClaimEntries | app-engine/src/main/java/be/cytomine/appengine/services/TaskProvisioningService.java:602-687 | The outputs never seen as files are a subset of the task's outputs. |
| RunLifecycle.StoreFault | app-engine/src/main/java/be/cytomine/appengine/services/TaskProvisioningService.java:602-667 | A failed write throws a runtime exception (rethrown at 583-585). A failed checksum throws INTERNAL_CRC32_CALC_FAILED (814-827), except for a directory inside a collection output, which is created and not checksummed. |
| RunLifecycle.StoreEntries | app-engine/src/main/java/be/cytomine/appengine/services/TaskProvisioningService.java:602-685 | The entry loop stops at the first unclaimed entry (UNKNOWN_OUTPUT) or the first claimed entry whose storing throws. When it completes, the outputs left are those of the claiming loop, no write failed, and only directories had a failing checksum. When every entry stores cleanly, it fails exactly when the claiming loop does. |
| RunLifecycle.ChecksumFailureStopsUpload | app-engine/src/main/java/be/cytomine/appengine/services/TaskProvisioningService.java:614-628 | A claimed file entry whose checksum fails ends the loop with INTERNAL_CRC32_CALC_FAILED, whatever entries follow, unknown ones included. |
| RunLifecycle.CountCollections | app-engine/src/main/java/be/cytomine/appengine/services/TaskProvisioningService.java:690-694 | Counts the remaining outputs of collection type. The count reaches the list's size exactly when all of them are collections. |
| RunLifecycle.MissingOutputs | app-engine/src/main/java/be/cytomine/appengine/services/TaskProvisioningService.java:689-705 | The missing-outputs test fails exactly when a remaining output is not a collection. |
| RunLifecycle.PostOutputs | app-engine/src/main/java/be/cytomine/appengine/services/TaskProvisioningService.java:549-586 | The output upload checks, in order: a wrong secret, then a state the scheduler does not manage, then the entry loop. In that loop an unclaimed entry saves FAILED, while a failed checksum (INTERNAL_CRC32_CALC_FAILED) or a failed write (a runtime exception) throws and saves nothing. Then a missing output saves FAILED. The upload succeeds exactly when all of these pass, no output is invalid and the matches report nothing, and it then leaves the run FINISHED. The first invalid output saves FAILED and heads the batch error, ahead of the match errors. No other state changes happen. |
| RunLifecycle.FirstInvalid | app-engine/src/main/java/be/cytomine/appengine/services/TaskProvisioningService.java:738-788 | Output validation stops at the first invalid output and reports its error under that output's name. There is no error exactly when every output is valid. |
| RunLifecycle.MatchErrorsAloneKeepState | app-engine/src/main/java/be/cytomine/appengine/services/TaskProvisioningService.java:799-807 | When the only errors are after-execution match errors, they are thrown as one batch error and the run keeps its state. |
| CollectionIndex.Step | app-engine/src/main/java/be/cytomine/appengine/services/TaskProvisioningService.java:448-456 | One iteration of the cursor update. The first iteration copies the type into both cursors. Later iterations move the parent to the tracking type and the tracking type one level down, but only while the tracking type is a collection. |
| CollectionIndex.CheckAgainst | app-engine/src/main/java/be/cytomine/appengine/services/TaskProvisioningService.java:458-462 | An index passes exactly when it parses as an int, the parent is a collection with a maxSize, and the index lies in 0..maxSize-1 (computed in int). |
| CollectionIndex.CheckedPiecesParse | app-engine/src/main/java/be/cytomine/appengine/controllers/TaskRunController.java:127-137 | Every index of a path that passed the controller's pattern is a run of ASCII digits, which the check reads as its decimal value when that fits an int, as Integer.parseInt does. |
| CollectionIndex.ValidateParents | app-engine/src/main/java/be/cytomine/appengine/services/TaskProvisioningService.java:441-465 | A parameter that is not a collection fails the cast. An empty index path is accepted. |
| CollectionIndex.CheckedLevel | app-engine/src/main/java/be/cytomine/appengine/services/TaskProvisioningService.java:446-462 | For a type nesting d collections, the level each index is compared with lies above the innermost collection. |
| CollectionIndex.StepCursorsAfter | app-engine/src/main/java/be/cytomine/appengine/services/TaskProvisioningService.java:448-456 | Stepping the cursors after k iterations gives the cursors after k+1. |
| CollectionIndex.ValidateFromIsCheckedFrom | app-engine/src/main/java/be/cytomine/appengine/services/TaskProvisioningService.java:446-463 | The as-written loop equals a check of each index against the level CheckedLevel assigns it. |
| CollectionIndex.AsWrittenChecksLevelBefore | app-engine/src/main/java/be/cytomine/appengine/services/TaskProvisioningService.java:441-465 | As written, a path is accepted exactly when each index i passes against level CheckedLevel(i), which is the level above its own. |
| CollectionIndex.ValidateIndexes | app-engine/src/main/java/be/cytomine/appengine/services/TaskProvisioningService.java:441-465 | The corrected check accepts a path exactly when it is no deeper than the type and each index i addresses an existing slot of collection level i. |
| CollectionIndex.OutOfBoundsInnerIndexAccepted | app-engine/src/main/java/be/cytomine/appengine/services/TaskProvisioningService.java:458-462 | Path 0/5 of a 10-by-2 collection is accepted as written and refused by the corrected check. |
| CollectionNodes.SizeCheck | app-engine/src/main/java/be/cytomine/appengine/models/task/collection/CollectionType.java:400-402 | A size passes exactly when both bounds are set and the size lies within them. A failing size is INTERNAL_INVALID_COLLECTION_DIMENSIONS, or a crash when a null bound is unboxed. |
| CollectionNodes.CheckNode | app-engine/src/main/java/be/cytomine/appengine/models/task/collection/CollectionType.java:382-441 | In the corrected walk, a non-list at a collection level is a dimension error, and a list out of bounds fails the size check. A list-valued item at a leaf level is INTERNAL_WRONG_PROVISION_STRUCTURE. |
| CollectionNodes.CorrectedAcceptsConforming | app-engine/src/main/java/be/cytomine/appengine/models/task/collection/CollectionType.java:382-441 | The corrected walk accepts a value exactly when it conforms: every list lies within the bounds of the level it sits at, and every leaf passes the leaf type's check. |
| CollectionNodes.FlatCollectionsAgree | app-engine/src/main/java/be/cytomine/appengine/models/task/collection/CollectionType.java:377-441 | On a single-level collection, validateNativeCollection as written gives the same verdict as the corrected walk on every value. |
| CollectionNodes.SecondSublistCrashes | app-engine/src/main/java/be/cytomine/appengine/models/task/collection/CollectionType.java:382-441 | On a two-row grid, the second row is walked with the leaf type as tracking type, and the cast crashes. The corrected walk accepts the grid. |
| CollectionFiles.ReadValue | app-engine/src/main/java/be/cytomine/appengine/models/task/collection/CollectionType.java:246-279 | The bare Type and a collection are refused as unknown leaf types. An integer, number or datetime item reads exactly when its text parses as an int (ASCII digits), a double under the JDK's parser or an instant, and crashes otherwise. A boolean reads as true exactly when its text is "true" ignoring case. Strings, enumerations, geometries, images and files keep their text. A successful read is a scalar. |
| CollectionFiles.ParentName | app-engine/src/main/java/be/cytomine/appengine/models/task/collection/CollectionType.java:239 | The parent list name is a prefix of the entry name, and it is empty or ends in '/'. |
| CollectionFiles.Gather | app-engine/src/main/java/be/cytomine/appengine/models/task/collection/CollectionType.java:227-281 | Without any array.yml entry among those read, the gathered main list holds no metadata. |
| CollectionFiles.CountsAddUp | app-engine/src/main/java/be/cytomine/appengine/models/task/collection/CollectionType.java:283-297 | Each gathered map is either an array.yml map or an item map. |
| CollectionFiles.ValidateFiles | app-engine/src/main/java/be/cytomine/appengine/models/task/collection/CollectionType.java:209-306 | An empty output crashes. A main list without an array.yml map is INTERNAL_MISSING_METADATA. An output with no main directory reaches validate with null and passes. |
| CollectionFiles.ValidateFilesCorrected | app-engine/src/main/java/be/cytomine/appengine/models/task/collection/CollectionType.java:209-306 | The corrected check keeps the code's error cases: an empty output crashes, a failed gathering fails the same way, and a main list without an array.yml map is MISSING_METADATA. Only the items, not the array.yml maps, reach the size check. |
| CollectionFiles.NoArrayYmlIsMissingMetadata | app-engine/src/main/java/be/cytomine/appengine/models/task/collection/CollectionType.java:283-297 | A collection output without array.yml fails with INTERNAL_MISSING_METADATA, whatever its items. |
| CollectionFiles.SizeCheckedOn | app-engine/src/main/java/be/cytomine/appengine/models/task/collection/CollectionType.java:209-300 | As written, the size check counts the items together with the array.yml maps. The corrected check counts the items alone. |
| CollectionFiles.FullOutputRefused | app-engine/src/main/java/be/cytomine/appengine/models/task/collection/CollectionType.java:209-300 | A collection allowing two items, given two items and an array.yml, is refused as written and accepted by the corrected check. |
| CollectionChecks.SetConstraint | app-engine/src/main/java/be/cytomine/appengine/models/task/collection/CollectionType.java:195-207 | Setting a bound changes only that bound, to the parsed int. Text that does not parse is a NumberFormatException, and an unknown constraint changes nothing. |
| CollectionChecks.SetConstraintsCommute | app-engine/src/main/java/be/cytomine/appengine/models/task/collection/CollectionType.java:195-207 | Setting minSize then maxSize gives the same type as setting them the other way round. |
| CollectionChecks.CheckFeatures | app-engine/src/main/java/be/cytomine/appengine/models/task/collection/CollectionType.java:129-155 | The feature loop reports nothing exactly when every feature is a "Feature" with an acceptable geometry. |
| CollectionChecks.ValidateFeatureCollection | app-engine/src/main/java/be/cytomine/appengine/models/task/collection/CollectionType.java:112-158 | Unparsable text is INTERNAL_INVALID_FEATURE_COLLECTION, and a root that is not a FeatureCollection with a features array is INTERNAL_PARAMETER_INVALID_GEOJSON. The collection is accepted exactly when its feature count passes the size check and every feature passes. |
| CollectionChecks.FeatureOrderIrrelevant | app-engine/src/main/java/be/cytomine/appengine/models/task/collection/CollectionType.java:112-158 | Rotating the features does not change the verdict. |
| CollectionNaming.Bracketed | app-engine/src/main/java/be/cytomine/appengine/models/task/collection/CollectionType.java:686-688 | No parts give "". Otherwise the text starts with the first part in brackets. |
| CollectionNaming.BracketedAppend | app-engine/src/main/java/be/cytomine/appengine/models/task/collection/CollectionType.java:686-688 | Bracketing distributes over concatenation of part lists. |
| CollectionNaming.TransformParts | app-engine/src/main/java/be/cytomine/appengine/models/task/collection/CollectionType.java:679-690 | No indexes give "". Otherwise the result is the first index followed by the others, each in brackets. |
| CollectionNaming.Transform | app-engine/src/main/java/be/cytomine/appengine/models/task/collection/CollectionType.java:692-711 | A name without '/' is returned unchanged. Otherwise the result starts with the text before the first '/'. |
| CollectionNaming.TransformAgrees | app-engine/src/main/java/be/cytomine/appengine/models/task/collection/CollectionType.java:679-711 | When no piece between slashes is empty, the string form of transform equals the array form applied to the string's Java split. |
| CollectionNaming.TransformTwoIndexes | app-engine/src/main/java/be/cytomine/appengine/models/task/collection/CollectionType.java:692-711 | name/a/b becomes name[a][b]. |
| CollectionNaming.DigitRuns | app-engine/src/main/java/be/cytomine/appengine/models/task/collection/CollectionType.java:714-720 | The runs found by \d+ are non-empty digit strings, and together they hold every digit of the input. |
| CollectionNaming.DigitRunsCount | app-engine/src/main/java/be/cytomine/appengine/models/task/collection/CollectionType.java:714-720 | There is one run per digit that does not follow a digit. |
| CollectionNaming.NumberAtPosition | app-engine/src/main/java/be/cytomine/appengine/models/task/collection/CollectionType.java:713-727 | The result is null exactly for a position below 1 or beyond the last run. Otherwise it is the position-th run. |
| CollectionNaming.ArrayYmlPath | app-engine/src/main/java/be/cytomine/appengine/services/TaskProvisioningService.java:1477-1484 | An empty index array throws. One index gives "<name>/array.yml". Deeper indexes give the item's parent directories followed by "/array.yml". |
| CollectionNaming.StreamArrayYml | app-engine/src/main/java/be/cytomine/appengine/services/TaskProvisioningService.java:1485-1509 | A collection without an array.yml gets "size: 1". |
| CollectionNaming.ReadSizeOfArrayYml | app-engine/src/main/java/be/cytomine/appengine/services/TaskProvisioningService.java:1489 | The size written into array.yml is the size read back from it. |
| CollectionNaming.StreamBumpsSize | app-engine/src/main/java/be/cytomine/appengine/services/TaskProvisioningService.java:1485-1493 | Streaming an item into a collection whose array.yml reads size n rewrites it to size n+1. |
| CollectionNaming.StreamTimesCounts | app-engine/src/main/java/be/cytomine/appengine/services/TaskProvisioningService.java:1485-1509 | Streaming k items into an empty collection leaves "size: k". |
| CollectionStorage.DropMetadata | app-engine/src/main/java/be/cytomine/appengine/models/task/collection/CollectionType.java:1322 | Removing the array.yml entries leaves no metadata entry and keeps a list without metadata unchanged. |
| CollectionStorage.MapLeaf | app-engine/src/main/java/be/cytomine/appengine/models/task/collection/CollectionType.java:1297-1332 | Storing a leaf keeps the non-metadata entries in order. It appends the item entry and then an array.yml that counts the entries kept. |
| CollectionStorage.MapNode | app-engine/src/main/java/be/cytomine/appengine/models/task/collection/CollectionType.java:1282-1284 | A JSON null is refused with INTERNAL_NULL_PROVISION. |
| CollectionStorage.MapLeafAt | app-engine/src/main/java/be/cytomine/appengine/models/task/collection/CollectionType.java:1297-1332 | A scalar stored at /name/idx lands after the kept entries. It is followed by name/array.yml, which counts them. |
| CollectionStorage.MapFlatItems | app-engine/src/main/java/be/cytomine/appengine/models/task/collection/CollectionType.java:1285-1295 | The item loop over flat items extends the layout item by item. |
| CollectionStorage.FlatArrayLayout | app-engine/src/main/java/be/cytomine/appengine/models/task/collection/CollectionType.java:1270-1334 | A single-level array of n scalar items gives its directory, then the n item entries in order, then one array.yml reading "size: n". |
| CollectionMatching.LastBracket | app-engine/src/main/java/be/cytomine/appengine/services/TaskProvisioningService.java:1184-1186 | The index suffix exists exactly when the index holds '['. It is a suffix that starts with the last '['. |
| CollectionMatching.CountEnding | app-engine/src/main/java/be/cytomine/appengine/services/TaskProvisioningService.java:1187-1193 | Counts the matched items whose index ends with the suffix. The count is zero exactly when none does. |
| CollectionMatching.CheckItems | app-engine/src/main/java/be/cytomine/appengine/services/TaskProvisioningService.java:1183-1199 | The index loop passes exactly when every item of the matching collection has exactly one partner. |
| CollectionMatching.CheckBefore | app-engine/src/main/java/be/cytomine/appengine/services/TaskProvisioningService.java:1162-1202 | The before-execution check passes exactly when every before-execution match holds (equal sizes and aligned indexes). A failure is the first violation's code. |
| CollectionMatching.CollectItems | app-engine/src/main/java/be/cytomine/appengine/services/TaskProvisioningService.java:1227-1247 | The collected list is empty exactly when every item has one partner. Each error is NOT_ALIGNED_INDEXES under the matching parameter's name. |
| CollectionMatching.CheckAfter | app-engine/src/main/java/be/cytomine/appengine/services/TaskProvisioningService.java:1204-1251 | The after-execution check reports nothing exactly when every after-execution match holds. Every reported error is a size or alignment error. |
| CollectionMatching.BeforeAndAfterAgree | app-engine/src/main/java/be/cytomine/appengine/services/TaskProvisioningService.java:1162-1251 | The two checks accept the same runs. Before-execution passes exactly when after-execution, on the same matches re-timed, reports nothing. |
| TaskTypes.Leaf | app-engine/src/main/java/be/cytomine/appengine/models/task/collection/CollectionType.java:215-218 | Walking down the subtypes ends at a non-collection type, the level at the collection's depth. |
| ProvisionErrors.Build | app-engine/src/main/java/be/cytomine/appengine/dto/responses/errors/ErrorDefinitions.java:94-100 | An error can be built exactly for a registered code, and it carries that code's string. |
| ProvisionErrors.ForbiddenBody | app-engine/src/main/java/be/cytomine/appengine/exceptions/handlers/ProvisionTaskApiExceptionHandler.java:53-59 | The 403 body is a JSON object with exactly errorCode and message. |
| ProvisionErrors.ProvisioningStatus | app-engine/src/main/java/be/cytomine/appengine/exceptions/handlers/ProvisionTaskApiExceptionHandler.java:34-63 | The run-not-found and parameter-not-found code strings, ignoring case, give 404. The provisions-not-found and run-state code strings give 403. Everything else gives 400. |
| ProvisionErrors.Handle | app-engine/src/main/java/be/cytomine/appengine/exceptions/handlers/ProvisionTaskApiExceptionHandler.java:23-73 | A missing task is 404 with TASK_NOT_FOUND, and an unreadable body is 400 with UNKNOWN_STATE. A provisioning error gets ProvisioningStatus of its code, with the reduced JSON body at 403 and the error itself otherwise. |
| ProvisionErrors.StateErrorsShareCode | app-engine/src/main/java/be/cytomine/appengine/dto/responses/errors/ErrorDefinitions.java:21-65 | INVALID_TASK_RUN_STATE, JSON_PROCESSING_ERROR and UNKNOWN_STATE share the run-state code string. |
| ProvisionErrors.JsonProcessingErrorIsForbidden | app-engine/src/main/java/be/cytomine/appengine/exceptions/handlers/ProvisionTaskApiExceptionHandler.java:46-60 | Because the status follows the code string, a JSON-processing error is answered 403. |
| ProvisionErrors.RunNotFoundIsNotFound | app-engine/src/main/java/be/cytomine/appengine/exceptions/handlers/ProvisionTaskApiExceptionHandler.java:37-44 | A missing run is answered 404. |
| ProvisionErrors.NotProvisionedIsForbidden | app-engine/src/main/java/be/cytomine/appengine/exceptions/handlers/ProvisionTaskApiExceptionHandler.java:46-60 | A run that is not provisioned is answered 403. |
| ProvisionErrors.ProvisionErrorsShareCode | app-engine/src/main/java/be/cytomine/appengine/dto/responses/errors/ErrorDefinitions.java:21-65 | The "not provisioned" error and the "provisions not found" error carry the same public code. |
| ProvisionErrors.NotFoundCodes | app-engine/src/main/java/be/cytomine/appengine/dto/responses/errors/ErrorDefinitions.java:21-65 | A missing run and a missing parameter each carry their own not-found code. |
| ProvisionErrors.ParameterNotFoundIsNotFound | app-engine/src/main/java/be/cytomine/appengine/exceptions/handlers/ProvisionTaskApiExceptionHandler.java:37-44 | A missing parameter is answered with 404. |
| ErrorCodes.FromCode | app-engine/src/main/java/be/cytomine/appengine/dto/responses/errors/ErrorDefinitions.java:94-100 | fromCode returns the registered pair, or throws UndefinedCodeException exactly for the five codes that are not in the table. |
| BatchProvisioning.GetParameter | app-engine/src/main/java/be/cytomine/appengine/services/TaskProvisioningService.java:373-382 | Finds the first parameter whose name equals the given name ignoring case and whose kind matches, or null when none does. |
| BatchProvisioning.ValidateProvision | app-engine/src/main/java/be/cytomine/appengine/services/TaskProvisioningService.java:384-405 | A provision passes exactly when some input carries its name (ignoring case) and every such input's type accepts the value. A name no input carries is INTERNAL_PARAMETER_DOES_NOT_EXIST. |
| BatchProvisioning.ItemError | app-engine/src/main/java/be/cytomine/appengine/services/TaskProvisioningService.java:226-265 | An item that does not decode is a JSON-processing error. Otherwise it has an error exactly when its validation fails. |
| BatchProvisioning.ValidationErrors | app-engine/src/main/java/be/cytomine/appengine/services/TaskProvisioningService.java:224-267 | The collected list is empty exactly when no item has an error. Every collected error is some item's error, and there is at most one per item. |
| BatchProvisioning.StoreAll | app-engine/src/main/java/be/cytomine/appengine/services/TaskProvisioningService.java:273-290 | The storing loop yields one response or one error per provision and keeps earlier errors and responses. A record that existed before keeps its flag, and a record it creates is provisioned. |
| BatchProvisioning.Persist | app-engine/src/main/java/be/cytomine/appengine/models/task/collection/CollectionType.java:745-770 | persistProvision on the input records: a missing record is created provisioned, an existing record keeps its flag, and no other record changes. |
| BatchProvisioning.StoredWithoutErrorsRecordsAll | app-engine/src/main/java/be/cytomine/appengine/services/TaskProvisioningService.java:273-290 | When storing adds no error, every provision's parameter has a record. The record is provisioned exactly when it is new or was already provisioned before the batch. |
| BatchProvisioning.ProvisionMultiple | app-engine/src/main/java/be/cytomine/appengine/services/TaskProvisioningService.java:215-300 | An unknown run is RUN_NOT_FOUND, and any validation error is thrown as one batch before anything is stored. On success there is one response per provision and every provision is recorded, provisioned unless its record existed unprovisioned before. The run is then re-checked for PROVISIONED. No other state change happens. |
| BatchProvisioning.BatchIgnoresRunState | app-engine/src/main/java/be/cytomine/appengine/services/TaskProvisioningService.java:215-300 | A successful batch that completes the inputs makes the run PROVISIONED, whatever state it was in. |
| BatchProvisioning.UnprovisionedRecordBlocksPromotion | app-engine/src/main/java/be/cytomine/appengine/models/task/collection/CollectionType.java:494-498 | A collection left unprovisioned by item provisioning below its minimum size stays unprovisioned through a batch that provisions it again, so the run is not promoted. |
| BatchProvisioning.RetrieveGuard | app-engine/src/main/java/be/cytomine/appengine/services/TaskProvisioningService.java:467-488 | Inputs can be fetched once the run has left CREATED, outputs only when it is FINISHED, and either only when some record exists. A refusal is a run-state or provisions-not-found error. |
| IndexPattern.RunFromAccepts | app-engine/src/main/java/be/cytomine/appengine/controllers/TaskRunController.java:127-128 | The automaton built for the index regex accepts exactly what the regex's reference reading accepts. |
| IndexPattern.PatternAcceptsExactly | app-engine/src/main/java/be/cytomine/appengine/controllers/TaskRunController.java:127-128 | An index path is accepted exactly when it is "0" or starts with a positive number without a leading zero, followed by "/digits" pieces. |
| IndexPattern.SplitKeepsAllPieces | app-engine/src/main/java/be/cytomine/appengine/controllers/TaskRunController.java:137 | Java's split of an accepted path drops nothing. |
| IndexPattern.CheckIndexes | app-engine/src/main/java/be/cytomine/appengine/controllers/TaskRunController.java:127-137 | A path outside the pattern is INTERNAL_INVALID_INDEXES_PATTERN for the parameter. An accepted one splits into non-empty digit strings. |
| IndexPattern.PatternExamples | app-engine/src/main/java/be/cytomine/appengine/controllers/TaskRunController.java:127 | "0", "3/0/12" and "1/007" are accepted. "", "01", "1/" and "1//2" are refused. |
| TaskDescriptor.DescriptorEntryExamples | app-engine/src/main/java/be/cytomine/appengine/services/TaskService.java:123 | The descriptor entry name is matched ignoring case, as a whole name at the archive's root. |
| TaskDescriptor.ImageNameOf | app-engine/src/main/java/be/cytomine/appengine/services/TaskService.java:150-158 | Only .tar entries name an image. A .tar entry without '-' fails the substring. Otherwise the image name holds ':'. |
| TaskDescriptor.ImageNameOfParts | app-engine/src/main/java/be/cytomine/appengine/services/TaskService.java:150-158 | "<namespace>-<version>.tar" with no '-' in the namespace becomes "<namespace with '.' turned into '/'>:<version>". |
| TaskDescriptor.ImageNameExample | app-engine/src/main/java/be/cytomine/appengine/services/TaskService.java:150-158 | a.b-1.0.tar gives the image a/b:1.0. |
| TaskDescriptor.FindParameter | app-engine/src/main/java/be/cytomine/appengine/services/TaskService.java:361-365 | Finds the first parameter with the exact name and kind, or none. |
| TaskDescriptor.ParseMatching | app-engine/src/main/java/be/cytomine/appengine/services/TaskService.java:352-359 | A matching text without '/' is skipped. Otherwise it is cut at its first '/' into a kind and a name. |
| TaskDescriptor.ParseMatchingOfParts | app-engine/src/main/java/be/cytomine/appengine/services/TaskService.java:352-359 | Cutting "<kind>/<name>" gives back the kind and the name when the kind has no '/'. |
| TaskDescriptor.CheckTimeFor | app-engine/src/main/java/be/cytomine/appengine/services/TaskService.java:368-388 | Inputs matched to inputs are checked before execution. Outputs matched to outputs, and cross matches, are checked after execution. |
| TaskDescriptor.UndefinedOnlyForForeignTypes | app-engine/src/main/java/be/cytomine/appengine/services/TaskService.java:368-388 | The check time is UNDEFINED exactly when the matching type is neither "inputs" nor "outputs". |
| TaskDescriptor.MatchesFrom | app-engine/src/main/java/be/cytomine/appengine/services/TaskService.java:350-393 | A non-text element fails. Otherwise every match found ties the parameter to an existing parameter. |
| TaskDescriptor.ElementMatch | app-engine/src/main/java/be/cytomine/appengine/services/TaskService.java:352-391 | An element without '/' adds nothing. A match found pairs the parameter with an existing parameter at the check time of its matching type. |
| TaskDescriptor.ParameterMatches | app-engine/src/main/java/be/cytomine/appengine/services/TaskService.java:342-396 | A parameter without a dependencies object has no matches. Every match found belongs to the parameter. |
| TaskDescriptor.GetMatches | app-engine/src/main/java/be/cytomine/appengine/services/TaskService.java:304-340 | Every match is tied to a declared parameter. With no output matches, the matches are exactly those of the inputs. |
| TaskDescriptor.ResourcesOf | app-engine/src/main/java/be/cytomine/appengine/services/TaskService.java:280-291 | Without resources the defaults apply and gpus stays unset. With resources, each of ram, cpus and gpus falls back to its own default (gpus to 0) when missing, and otherwise takes the descriptor's value. A fractional cpus, written as a number or as text, is truncated toward zero as Jackson's asInt does. |
| Json.AsIntOr | app-engine/src/main/java/be/cytomine/appengine/services/TaskService.java:289-290 | Jackson's asInt(default): a missing, null or container node gives the default, an integral number its low 32 bits, a fractional number the (int) cast, a boolean 1 or 0, and a text Jackson's parseAsInt. |
| Json.AsInt | app-engine/src/main/java/be/cytomine/appengine/models/task/image/ImageType.java:79-84 | asInt() is asInt(0): an in-range integral number is itself, and a fractional number or a text is read as asInt(0) reads it. |
| Json.ParseAsInt | app-engine/src/main/java/be/cytomine/appengine/services/TaskService.java:289-290 | Text that parses as an int gives that int; empty text, an overflowing run of digits and text the double parser refuses give the default; any other text gives the (int) cast of its double. |
| Json.DoubleToInt | app-engine/src/main/java/be/cytomine/appengine/services/TaskService.java:289-290 | Java's (int) cast of a double: NaN is 0, a value in range is the integer between zero and it that lies less than one away, and a value out of range saturates at the int bounds. |
| Json.FractionsTruncate | app-engine/src/main/java/be/cytomine/appengine/services/TaskService.java:289-290 | cpus written as "0.5" or 0.5 reads as 0 rather than the default, "2.5" as 2, "1e3" as 1000, and a width of 1024.5 as 1024. |
| TaskDescriptor.RenderDefault | app-engine/src/main/java/be/cytomine/appengine/services/TaskService.java:424-440 | A text default is stored without quotes, and any other default as its JSON rendering, which for a fractional number is its `Double.toString` text, as `numberValue().toString()` gives. |
| TaskDescriptor.DerivedFrom | app-engine/src/main/java/be/cytomine/appengine/services/TaskService.java:461-469 | Without a dependencies object there is no derivation. Any derivation found names an existing input. |
| TaskDescriptor.DerivedFromInput | app-engine/src/main/java/be/cytomine/appengine/services/TaskService.java:461-469 | derived_from "inputs/x" links the output to the input x when it exists. |
| TaskDescriptor.CreateRun | app-engine/src/main/java/be/cytomine/appengine/services/TaskService.java:618-680 | A missing task fails with the "not found to associate with this run" message. A run is created exactly for a task with at least one input, in state CREATED with the generated secret. |
| ImageFormats.ZipSignature | app-engine/src/main/java/be/cytomine/appengine/models/task/formats/ZipFormat.java:14-27 | A file has the ZIP signature exactly when it is a readable regular file whose first four bytes are 50 4B 03 04. |
| ImageFormats.DicomSignature | app-engine/src/main/java/be/cytomine/appengine/models/task/formats/DicomFormat.java:27-43 | A file has the DICOM signature exactly when it is a readable regular file of at least 132 bytes with "DICM" at offset 128. |
| ImageFormats.DicomMagic | app-engine/src/main/java/be/cytomine/appengine/models/task/formats/DicomFormat.java:45-50 | The byte-array check passes exactly on the four bytes "DICM". |
| ImageFormats.HeaderCheckAsWritten | app-engine/src/main/java/be/cytomine/appengine/models/task/formats/DicomFormat.java:57-71 | As written, an entry under four bytes crashes the copy. An entry passes exactly when the last four of its first 132 bytes (or of all of it, when shorter) are "DICM". |
| ImageFormats.HeaderCheck | app-engine/src/main/java/be/cytomine/appengine/models/task/formats/DicomFormat.java:57-71 | The corrected header check passes exactly when the entry carries the file signature ("DICM" at offset 128). Otherwise it is INTERNAL_PARAMETER_INVALID_IMAGE_FORMAT. |
| ImageFormats.HeaderChecksAgreeOnFullHeaders | app-engine/src/main/java/be/cytomine/appengine/models/task/formats/DicomFormat.java:57-71 | On entries of at least 132 bytes, the as-written and corrected header checks agree. |
| ImageFormats.ShortEntryPassesHeaderCheck | app-engine/src/main/java/be/cytomine/appengine/models/task/formats/DicomFormat.java:57-71 | A 4-byte entry "DICM" passes as written though it is no DICOM file, and the corrected check refuses it. An empty entry crashes as written. |
| ImageFormats.ZippedWsiDicom | app-engine/src/main/java/be/cytomine/appengine/models/task/formats/WSIDicomFormat.java:38-48 | An unreadable archive is INTERNAL_PARAMETER_TYPE_ERROR. Otherwise the archive passes exactly when every entry passes the header check. |
| ImageFormats.FirstFailing | app-engine/src/main/java/be/cytomine/appengine/models/task/formats/WSIDicomFormat.java:41-44 | The entry loop reports nothing exactly when every entry passes, and otherwise reports some entry's own failure. |
| ImageFormats.WsiDicomSignature | app-engine/src/main/java/be/cytomine/appengine/models/task/formats/WSIDicomFormat.java:19-30 | A WSI DICOM is a directory with a non-empty listing of regular files that all carry the DICOM signature. |
| ImageFormats.ZipAndWsiDisjoint | app-engine/src/main/java/be/cytomine/appengine/models/task/formats/ZipFormat.java:14-27 | No file is both a ZIP archive and a WSI DICOM directory. |
| ImageFormats.GetFormat | app-engine/src/main/java/be/cytomine/appengine/models/task/image/ImageFormatFactory.java:15-27 | A format is found exactly when the upper-cased name is DICOM, JPEG, PNG, TIFF or WSIDICOM. The generic format is never found by name. |
| ImageFormats.RegistryIgnoresCase | app-engine/src/main/java/be/cytomine/appengine/models/task/image/ImageFormatFactory.java:25-27 | Every registered format is found under its name, also when the name is written in lower case. |
| ImageValidation.SetImageConstraint | app-engine/src/main/java/be/cytomine/appengine/models/task/image/ImageType.java:71-87 | Setting a constraint changes only that constraint. formats is parsed from the JSON text, maxFileSize is asText, and the bounds are Jackson's asInt, which truncates a fractional width or height and reads text such as "1e3" through the double parser. |
| ImageValidation.SetThenHas | app-engine/src/main/java/be/cytomine/appengine/models/task/image/ImageType.java:71-97 | A constraint that has been set is present, and setting one constraint leaves the presence of the others alone. |
| ImageValidation.SelectFrom | app-engine/src/main/java/be/cytomine/appengine/models/task/image/ImageType.java:105-117 | The format is the first listed one whose signature the file carries. None is INTERNAL_PARAMETER_INVALID_IMAGE_FORMAT, and an unknown name reached before a match crashes. |
| ImageValidation.SelectFormat | app-engine/src/main/java/be/cytomine/appengine/models/task/image/ImageType.java:99-118 | No formats, or an empty list, select the generic format. Otherwise the first matching listed format is selected. |
| ImageValidation.SelectIgnoresCase | app-engine/src/main/java/be/cytomine/appengine/models/task/image/ImageType.java:105-108 | Writing the format names in lower case selects the same format. |
| ImageValidation.Largest | app-engine/src/main/java/be/cytomine/appengine/models/task/image/ImageType.java:144-148 | The baseline is the first of the largest files, and there is one exactly when there are files. |
| ImageValidation.Baseline | app-engine/src/main/java/be/cytomine/appengine/models/task/image/ImageType.java:140-156 | Only a WSI DICOM is walked, and a failed walk is INTERNAL_PARAMETER_BASELINE_IMAGE_FAILED. The baseline is a regular file of the walk, absent exactly when there is none. |
| ImageValidation.DimensionCheck | app-engine/src/main/java/be/cytomine/appengine/models/task/image/ImageType.java:120-138 | Without maximum dimensions nothing is checked, and unknown dimensions are INTERNAL_PARAMETER_INVALID_IMAGE_DIMENSION. The width is checked before the height, and the check passes exactly when both are within their bounds. |
| ImageValidation.SizeCheck | app-engine/src/main/java/be/cytomine/appengine/models/task/image/ImageType.java:158-175 | Without maxFileSize nothing is checked. A bad unit is INTERNAL_PARAMETER_INVALID_IMAGE_SIZE_FORMAT. Otherwise the check passes exactly when the file is no longer than the limit. |
| ImageValidation.CheckFile | app-engine/src/main/java/be/cytomine/appengine/models/task/image/ImageType.java:236-255 | A ZIP passes exactly when every entry passes the DICOM header check and it unzips. Other files are checked for format, then dimensions, then size, then the format's own validation, and the first failure is reported. |
| ImageValidation.Validate | app-engine/src/main/java/be/cytomine/appengine/models/task/image/ImageType.java:221-257 | A value that is neither file nor text is INTERNAL_PARAMETER_TYPE_ERROR, as is text that does not name an existing absolute regular file. Otherwise the file is checked. |
| ImageValidation.FormatCheckedFirst | app-engine/src/main/java/be/cytomine/appengine/models/task/image/ImageType.java:247 | A file none of whose listed formats matches is refused as an invalid format before any other check. |
| ImageValidation.UnconstrainedImageAccepted | app-engine/src/main/java/be/cytomine/appengine/models/task/image/ImageType.java:99-103 | An image type without constraints accepts any non-ZIP file that the generic format accepts. |
| ImageValidation.OutputFileOf | app-engine/src/main/java/be/cytomine/appengine/models/task/image/ImageType.java:259-295 | A directory entry resolves under the storage base path. A file entry must exist, must not be a directory and must be alone, each with its own error. |
| ImageValidation.ValidateOutput | app-engine/src/main/java/be/cytomine/appengine/models/task/image/ImageType.java:298-309 | An output image fails with its structure error, or is validated as a file. |
| ImageValidation.PersistProvision | app-engine/src/main/java/be/cytomine/appengine/models/task/image/ImageType.java:312-327 | An input record is added, marked provisioned, only when none exists for the name and run. |
| ImageValidation.PersistResult | app-engine/src/main/java/be/cytomine/appengine/models/task/image/ImageType.java:330-343 | An output record is added, not provisioned, only when none exists. |
| ImageValidation.PersistProvisionIdempotent | app-engine/src/main/java/be/cytomine/appengine/models/task/image/ImageType.java:312-327 | Persisting a provision twice gives the same store as once. |
| ImageValidation.PersistResultKeepsInputs | app-engine/src/main/java/be/cytomine/appengine/models/task/image/ImageType.java:330-343 | Persisting an output never loses an input record. |
| TypeFactory.TypeId | app-engine/src/main/java/be/cytomine/appengine/models/task/TypeFactory.java:30-36 | A textual node is its own id. Otherwise the id is the node's "id" text. |
| TypeFactory.TypeNode | app-engine/src/main/java/be/cytomine/appengine/models/task/TypeFactory.java:39-40 | The type node is the "type" field when present, and the node itself otherwise. |
| TypeFactory.Present | app-engine/src/main/java/be/cytomine/appengine/models/task/TypeFactory.java:67-69 | The constraint keys applied are exactly the known keys the node has. |
| TypeFactory.IntPairs | app-engine/src/main/java/be/cytomine/appengine/models/task/TypeFactory.java:98-106 | Every integer constraint the node holds is applied with its asInt value, with Jackson's truncation of fractional numbers and of fractional text. |
| TypeFactory.TextPairs | app-engine/src/main/java/be/cytomine/appengine/models/task/TypeFactory.java:117-125 | Every textual constraint the node holds is applied with its rendered value. |
| TypeFactory.ImageFrom | app-engine/src/main/java/be/cytomine/appengine/models/task/TypeFactory.java:201-214 | An image constraint is present afterwards exactly when it was before or the node holds its key. A node without keys changes nothing. |
| TypeFactory.CollectionFrom | app-engine/src/main/java/be/cytomine/appengine/models/task/TypeFactory.java:66-75 | The collection bounds are set from the node and the subtype is kept. A bound that does not parse fails, and a node without bounds changes nothing. |
| TypeFactory.LeafType | app-engine/src/main/java/be/cytomine/appengine/models/task/TypeFactory.java:43-55 | Each known id gives its own type, and an unknown id gives the bare Type. A leaf id never gives a collection. Number bounds are kept as text here; CreateType refuses the ones that do not parse. |
| TypeFactory.CreateType | app-engine/src/main/java/be/cytomine/appengine/models/task/TypeFactory.java:38-81 | A node without an id fails. A number fails exactly when one of its bounds is not a double under the JDK's parser (or "nan", "inf", "-inf" in any case). Any other non-array id gives its leaf type. An array with a bad bound or without a subtype fails. An array that succeeds is a collection. |
| TypeFactory.ArraySubtype | app-engine/src/main/java/be/cytomine/appengine/models/task/TypeFactory.java:77-80 | An array type succeeds exactly when its subtype does, and carries the subtype's type. |
| TypeFactory.TextualShorthand | app-engine/src/main/java/be/cytomine/appengine/models/task/TypeFactory.java:30-36 | A type written as {"id": x} is the same as the bare text x. |
| TypeFactory.NestedArrayDepth | app-engine/src/main/java/be/cytomine/appengine/models/task/TypeFactory.java:58-81 | n nested "array" levels around a leaf give a collection type of depth n plus the leaf's depth. |
| AccessTokens.ExpiryAsWritten | core/src/main/java/be/cytomine/service/security/TemporaryAccessTokenService.java:41-54 | The expiry of a token created for a given number of hours, with the hour count multiplied in 32-bit int as the code does. Within the exact range it is now plus the hours; outside it, the offset stays within the int range of seconds. |
| AccessTokens.Expiry | core/src/main/java/be/cytomine/service/security/TemporaryAccessTokenService.java:49 | The intended expiry. It lies exactly the given hours after now, and it is not before now exactly when the hour count is not negative. |
| AccessTokens.ExpiriesAgreeWhenExact | core/src/main/java/be/cytomine/service/security/TemporaryAccessTokenService.java:49 | Within ±596523 hours the code's int arithmetic gives the intended expiry. |
| AccessTokens.ExpiryWrapsPastExactRange | core/src/main/java/be/cytomine/service/security/TemporaryAccessTokenService.java:49 | At 596524 hours the int product wraps, so the token expires about 24.8 days before it is created, while the intended expiry lies in the future. |
| AccessTokens.CreateToken | core/src/main/java/be/cytomine/service/security/TemporaryAccessTokenService.java:41-54 | The new token carries the key, the current user, the project and the intended expiry, and it is stored under its key. |
| AccessTokens.CreateTokenAsWritten | core/src/main/java/be/cytomine/service/security/TemporaryAccessTokenService.java:41-54 | The same, with the expiry computed by the code's wrapping arithmetic. |
| AccessTokens.CreateTokenFromJson | core/src/main/java/be/cytomine/service/security/TemporaryAccessTokenService.java:56-70 | Without "expirationHours" the token lasts 24 hours. With it, the result is the token that the hours-based creation gives. |
| AccessTokens.FindByKey | core/src/main/java/be/cytomine/service/security/TemporaryAccessTokenService.java:72-74 | A token is found exactly when its key is stored, and it is the stored token. |
| AccessTokens.FindByKeyAndProject | core/src/main/java/be/cytomine/service/security/TemporaryAccessTokenService.java:76-78 | A token is found exactly when its key is stored for that project. |
| AccessTokens.IsValidFor | core/src/main/java/be/cytomine/service/security/TemporaryAccessTokenService.java:80-99 | A token is valid for a project exactly when a project is given, the key is stored for that project, and the expiry has not passed. |
| AccessTokens.IsValid | core/src/main/java/be/cytomine/service/security/TemporaryAccessTokenService.java:107-116 | A token is valid on its own exactly when its key is stored and the expiry has not passed. |
| AccessTokens.ScopedValidityRefinesValidity | core/src/main/java/be/cytomine/service/security/TemporaryAccessTokenService.java:80-116 | Validity for some project implies validity on its own, and a valid token is valid for its own project. |
| AccessTokens.ValidAtExpiryInstant | core/src/main/java/be/cytomine/service/security/TemporaryAccessTokenService.java:80-116 | A token is still valid at its expiry instant, because only an expiry strictly before now fails. One millisecond later it is invalid. |
| AccessTokens.CreatedTokenLifetime | core/src/main/java/be/cytomine/service/security/TemporaryAccessTokenService.java:41-99 | A token created for h ≥ 0 hours is valid for its project from now until h hours later, invalid afterwards, and never valid for another project. |
| AccessTokens.WrappedTokenBornExpired | core/src/main/java/be/cytomine/service/security/TemporaryAccessTokenService.java:49 | The code's token for 596524 hours is already invalid when created; the intended one is valid. |
| TokenFilter.ParseSegment | core/src/main/java/be/cytomine/config/security/TemporaryTokenFilter.java:136-138 | Parsing one path segment never throws past the filter. It finds a project exactly when the segment is a valid Java long. |
| TokenFilter.ExtractProjectId | core/src/main/java/be/cytomine/config/security/TemporaryTokenFilter.java:124-154 | An exception escapes only in the hash form. A project is found only in the hash form or under "/api/project/". A URI with neither form gives no project. |
| TokenFilter.HashFormYieldsProject | core/src/main/java/be/cytomine/config/security/TemporaryTokenFilter.java:133-139 | "…/#/project/<n>" followed by nothing or by "/…" yields project n, for every long n. |
| TokenFilter.ApiFormYieldsProject | core/src/main/java/be/cytomine/config/security/TemporaryTokenFilter.java:143-148 | "/api/project/<n>" followed by nothing or by "/…" yields project n, when the URI holds no hash form. |
| TokenFilter.EmptySegmentAfterMarkerThrows | core/src/main/java/be/cytomine/config/security/TemporaryTokenFilter.java:133-138 | "…/#/project//" makes the number parse fail inside the filter. That exception is caught as a general failure, so no token is accepted. |
| TokenFilter.Filter | core/src/main/java/be/cytomine/config/security/TemporaryTokenFilter.java:37-121 | An existing authentication is kept. With no token or an empty one, nothing is authenticated. When authentication succeeds, the token is stored, its user exists, and the principal carries that user's roles. |
| TokenFilter.Authenticate | core/src/main/java/be/cytomine/config/security/TemporaryTokenFilter.java:73-85 | The principal exists exactly when the token's user exists, and it carries that user's roles. |
| TokenFilter.FilterAuthenticatesIff | core/src/main/java/be/cytomine/config/security/TemporaryTokenFilter.java:37-121 | Without prior authentication, a non-empty token authenticates exactly when: the URI yields a project and the token is valid for it, or the URI yields none and the token is valid on its own; and in either case the token's user exists. |
| TokenFilter.NoCrossProjectAccess | core/src/main/java/be/cytomine/config/security/TemporaryTokenFilter.java:66-89 | A token is never accepted on a URI that names another project. |
| TokenFilter.UnboundUriAcceptsAnyLiveToken | core/src/main/java/be/cytomine/config/security/TemporaryTokenFilter.java:90-113 | On a URI that names no project, any live token of an existing user is accepted. On a URI whose number fails to parse, none is. |
| TaskRuns.Indexed | core/src/main/java/be/cytomine/service/appengine/TaskRunService.java:214-232 | The array becomes items whose "index" is the position and whose "value" is the element. |
| TaskRuns.UnindexIndexed | core/src/main/java/be/cytomine/service/appengine/TaskRunService.java:214-232 | Reading the values back out of the indexed items gives the original array. |
| TaskRuns.Converted | core/src/main/java/be/cytomine/service/appengine/TaskRunService.java:222-226 | Geometry conversion succeeds exactly when every annotation id resolves. Each element then becomes its annotation's geometry; otherwise the annotation is not found. |
| TaskRuns.ProcessProvision | core/src/main/java/be/cytomine/service/appengine/TaskRunService.java:203-235 | The provision is forwarded without "type", and every other field is kept. The value is kept unless the type is geometry or a reshaped array. A provision that is not an object, or has no type id, crashes. |
| TaskRuns.ArrayProvisionReindexed | core/src/main/java/be/cytomine/service/appengine/TaskRunService.java:214-233 | An array provision of a non-geometry subtype has its value replaced by the indexed items, which give back the original elements. |
| TaskRuns.GeometryArrayConverted | core/src/main/java/be/cytomine/service/appengine/TaskRunService.java:214-233 | An array of geometries succeeds exactly when every element resolves, and then becomes indexed geometries. |
| TaskRuns.MissingSubtypeCrashes | core/src/main/java/be/cytomine/service/appengine/TaskRunService.java:217 | An array type without a subtype crashes on the subtype lookup. |
| TaskRuns.ProcessProvisions | core/src/main/java/be/cytomine/service/appengine/TaskRunService.java:199-239 | All provisions are processed in order. The batch fails with the first provision that fails. |
| TaskRuns.ForwardedProvisionsUntyped | core/src/main/java/be/cytomine/service/appengine/TaskRunService.java:205 | No forwarded provision carries a "type". |
| TaskRuns.HasGeometry | core/src/main/java/be/cytomine/service/appengine/TaskRunService.java:133-146 | Decides whether some output is a geometry or an array of geometries. |
| TaskRuns.AddTaskRun | core/src/main/java/be/cytomine/service/appengine/TaskRunService.java:101-162 | A user who is refused changes nothing. An unparsable app-engine reply changes nothing. Otherwise the run is recorded, and a layer at offset (0, 0) is added exactly when some output is geometric. |
| TaskRuns.FindRun | core/src/main/java/be/cytomine/service/appengine/TaskRunService.java:186 | A run is found exactly when one is stored for that project and run id. |
| TaskRuns.CheckTaskRun | core/src/main/java/be/cytomine/service/appengine/TaskRunService.java:185-197 | An unknown run is "not found", whatever the permissions. A known run passes exactly when the user is permitted. |
| TaskRuns.BatchProvisionTaskRun | core/src/main/java/be/cytomine/service/appengine/TaskRunService.java:241-245 | An unknown run fails. On success the processed provisions go to "task-runs/<id>/input-provisions". For a known run and a permitted user, success is exactly success of the processing. |
| AnnotationImport.FlipY | pims/pims/importer/annotation.py:111-114 | The flip keeps the kind and number of points. Each point keeps its x, and its y becomes the image height minus y. |
| AnnotationImport.FlipYInvolutive | pims/pims/importer/annotation.py:111-114 | Flipping twice at the same height gives back the geometry. |
| AnnotationImport.StringProperties | pims/pims/importer/annotation.py:111-118 | Properties are read exactly when they form an object of string values, and every field is kept. |
| AnnotationImport.LoadedProperties | pims/pims/importer/annotation.py:117 | An object typed "Feature" reads its properties as {} when they are missing or falsy, and as given otherwise. Any other object reads them as given, or as {} when the key is missing. |
| AnnotationImport.FeatureToWkt | pims/pims/importer/annotation.py:111-118 | A feature converts exactly when it is an object with a geometry and its properties, as loaded, are an object of strings; the result is that geometry flipped. A feature without properties, or a "Feature" whose properties are null or otherwise falsy, gets an empty property set. |
| AnnotationImport.FeaturesToWkt | pims/pims/importer/annotation.py:125 | A feature list converts exactly when every feature does, element by element and in order. |
| AnnotationImport.GeoJsonToWkt | pims/pims/importer/annotation.py:121-130 | A Feature gives its own conversion alone. A collection gives one annotation per entry of a "features" array, and converts exactly when every entry does. A collection without "features" raises, and one whose "features" is an empty object or string gives none. Any other object is one bare geometry with no properties, and a value that is not an object raises. |
| AnnotationImport.Load | pims/pims/importer/annotation.py:46-54 | A missing or unreadable file gives no annotations. A readable one gives its GeoJSON conversion. |
| AnnotationImport.ClassName | pims/pims/importer/annotation.py:84 | The term name is a "path_class_name" property when one is present, and none otherwise. |
| AnnotationImport.SaveAll | pims/pims/importer/annotation.py:80-87 | One saved annotation per loaded geometry, on the image. It carries a term exactly when its class name resolves to a term of the ontology. |
| AnnotationImport.ImportAnnotation | pims/pims/importer/annotation.py:56-89 | A missing image or ontology is reported by name, without saving anything. Success means both were found. |
| AnnotationImport.Run | pims/pims/importer/annotation.py:91-108 | One result per alias, in order. The summary's counts are those of the results. The run completes exactly when every alias imports without raising. |
| AnnotationImport.ImportAll | pims/pims/importer/annotation.py:99 | Imports each alias in turn, with the same result as importing it alone. |
| ImageImport.IsAlreadyImported | pims/pims/importer/image.py:168-179 | Decides whether some upload directory under the data root holds a link to the image. |
| ImageImport.ImportImage | pims/pims/importer/image.py:35-85 | A missing image and an already imported image are reported without changes. Otherwise the image is linked into the staging area. The import's error, if any, becomes the failure message. The link's name clashing with an existing one raises. |
| ImageImport.ImportImageAsWritten | pims/pims/importer/image.py:35-85 | As the code is written, an import that fails raises instead of reporting, because an exception is put where a message string is expected. Otherwise the outcome is the same as the intended one. |
| ImageImport.FailedImportRaisesAsWritten | pims/pims/importer/image.py:83-85 | A failing import is reported as a failure with its message by the intended code, but raises as written. |
| ImageImport.ImportAll | pims/pims/importer/image.py:89 | One result per alias, in order. The image set and data root are unchanged, and the staging area only grows. |
| ImageImport.Run | pims/pims/importer/image.py:87-98 | The summary counts one result per alias, in order, and its totals agree with the results. |
| ImageImport.RunAsWritten | pims/pims/importer/image.py:87-98 | The same summary bookkeeping for the code as written. |
| ImageImport.DistinctRunCompletes | pims/pims/importer/image.py:52-53 | Distinct aliases not yet staged never clash on the staging link. |
| ImageImport.DuplicateAliasClashes | pims/pims/importer/image.py:52-53 | Importing the same new alias twice in one run raises on the second link. |
| ImageImport.RunEasy | pims/pims/importer/image.py:100-165 | A missing file and an already imported file are reported without changes. Otherwise the file is staged, and the import's error, if any, becomes the failure message. |
| ImageImport.RunEasyAsWritten | pims/pims/importer/image.py:100-165 | As written, a failing import raises instead of reporting. |
| ImageImport.RunEasyAgreesWithImportImage | pims/pims/importer/image.py:35-165 | For an alias not yet staged, the single-file import does the same as the dataset import of that alias. |
| ImportScanner.AcquireLock | pims/pims/importer/scanner.py:51-54 | The lock is taken exactly when no unexpired lock is held, and then it expires 1800 s later. |
| ImportScanner.SecondAcquireFails | pims/pims/importer/scanner.py:51-54 | While the lock is held, a second attempt fails. Once it has expired, it can be taken again. |
| ImportScanner.ProjectsByName | pims/pims/importer/scanner.py:104 | The project map has exactly the projects' names as keys, and each maps to a project of that name. |
| ImportScanner.LastProjectWins | pims/pims/importer/scanner.py:104 | With duplicate names, the last project of a name is the one kept. |
| ImportScanner.DoScan | pims/pims/importer/scanner.py:75-123 | A missing root or failed login skips the scan. With no storage, nothing is imported. A batch is processed only after a login, and then on the first storage. |
| ImportScanner.ScanCycle | pims/pims/importer/scanner.py:59-73 | A cycle runs the scan exactly when it takes the lock, and then releases it. |
| ImportScanner.RunLoop | pims/pims/importer/scanner.py:34-46 | When disabled, no cycle runs. Never more than one cycle per turn. |
| ImportScanner.OneCyclePerTurn | pims/pims/importer/scanner.py:34-46 | When enabled, one cycle per turn until the stop event is seen. |
| ImportScanner.LockFreeAfterLoop | pims/pims/importer/scanner.py:59-73 | Starting unlocked, every cycle takes the lock and the loop leaves it free. |
| MetadataValidation.ValidateDocument | pims/pims/importer/metadata.py:25-41 | A document passes exactly when it parses and conforms to its schema. A syntax error or any other failure counts as invalid. |
| MetadataValidation.Validate | pims/pims/importer/metadata.py:49-62 | The six structures are checked in order, and the check stops at the first that fails. The whole passes exactly when every structure has its schema and a valid document. A missing schema gives false. A schema file that fails to parse raises. |
| OntologyImport.TermsOf | pims/pims/importer/ontology.py:37-39 | A list of term objects gives one new term per entry, with its type and color, under the new ontology. A non-object entry raises. An empty object or string gives no terms. |
| OntologyImport.Run | pims/pims/importer/ontology.py:19-41 | An unreadable term file raises. An existing ontology of the same name is returned as is, and nothing is created. Otherwise the ontology is created with the file's terms. |
| OntologyImport.RerunFindsCreated | pims/pims/importer/ontology.py:32-35 | Running the import again after a creation finds the created ontology and creates nothing more. |
| CytomineAuth.LReplace | pims/pims/api/utils/cytomine_auth.py:24-25 | A string that starts with the prefix has that one prefix replaced; any other string is unchanged. |
| CytomineAuth.LReplaceOnce | pims/pims/api/utils/cytomine_auth.py:24-25 | Only the leading occurrence is replaced, not a repeated one. |
| CytomineAuth.HeaderGet | pims/pims/api/utils/cytomine_auth.py:29 | Header lookup ignores case, and the first matching header wins. |
| CytomineAuth.ParseAuthorizationHeader | pims/pims/api/utils/cytomine_auth.py:28-36 | Parsing fails exactly when the header is missing, does not start with "CYTOMINE", or lacks a space or a colon. The signature is everything after the first colon. The key is the text between the first space and the first colon, or empty when the colon comes first. |
| CytomineAuth.AuthorizationRoundTrip | pims/pims/api/utils/cytomine_auth.py:28-36 | "CYTOMINE <key>:<signature>", with a key free of spaces and colons, parses back to that key and signature. |
| CytomineAuth.ColonBeforeSpaceGivesEmptyKey | pims/pims/api/utils/cytomine_auth.py:34 | "CYTOMINE: sig" parses to an empty key and a signature that starts with a space. |
| CytomineAuth.ContentType | pims/pims/api/utils/cytomine_auth.py:45-52 | The full content type is preferred when present, and the literal "null" never comes out. |
| CytomineAuth.ContentTypeFallbackRedundant | pims/pims/api/utils/cytomine_auth.py:47-49 | The fallback from "Content-Type" to "content-type" looks up the same header, because lookup ignores case. |
| CytomineAuth.Date | pims/pims/api/utils/cytomine_auth.py:43 | The "date" header is preferred, then "dateFull", then the empty string. |
| CytomineAuth.RequestTokenFields | pims/pims/api/utils/cytomine_auth.py:39-65 | When no field holds a newline, the token splits back into the method, MD5, content type and date, in that order. |
| PimsCatalog.GetImage | pims/pims/importer/utils.py:17-18 | An image is found exactly when one has that instance file name, and it is one of them. |
| PimsCatalog.GetOntology | pims/pims/importer/utils.py:21-22 | An ontology is found exactly when one has that name. |
| PimsCatalog.GetTerm | pims/pims/importer/utils.py:25-26 | A term is found exactly when a name is given and some term has it. |
| PimsCatalog.FirstNamed | pims/pims/importer/utils.py:17-26 | The first element with the name is returned, or none when no element has it. |
| PimsCatalog.GetProject | pims/pims/importer/utils.py:13-14 | A known key keeps its project. An unknown key gets a new project of that name. No other key changes. A project is saved on the server either way, because Python evaluates the default eagerly. |
| PimsCatalog.GetProjectStable | pims/pims/importer/utils.py:13-14 | Asking twice gives the same project, but two saves reach the server. |
| PimsCatalog.Summarize | pims/pims/importer/annotation.py:100-108 | The summary keeps the results. The total is their number, and the successful and failed counts add up to it. |
| PimsCatalog.SuccessfulAndFailedPartition | pims/pims/importer/annotation.py:100-108 | Every result is counted as exactly one of successful or failed. |
| Histograms.ArgminNonzero | pims/pims/processing/histograms/utils.py:39-43 | The index of the first non-zero bin, or 0 when every bin is zero. |
| Histograms.ArgmaxNonzero | pims/pims/processing/histograms/utils.py:46-52 | The index of the last non-zero bin, or the last index when every bin is zero. |
| Histograms.ArgminBeforeArgmax | pims/pims/processing/histograms/utils.py:39-52 | With any non-zero bin, the first non-zero bin comes no later than the last, and both are non-zero. |
| Histograms.PySlice | pims/pims/processing/histograms/utils.py:70 | Python slicing, which agrees with the plain slice for in-range bounds. |
| Histograms.ClampHistogram | pims/pims/processing/histograms/utils.py:55-70 | With bounds, the inclusive slice and its indices. Without bounds, the slice between the first and last non-zero bins. |
| Histograms.ClampWithinBounds | pims/pims/processing/histograms/utils.py:55-70 | In-range bounds give equally long bins and indices, and each bin is the histogram's bin at its index. |
| Histograms.ClampKeepsMass | pims/pims/processing/histograms/utils.py:65-70 | Clamping without bounds keeps the total count. The result starts and ends with a non-zero bin, and each bin is read at its index. |
| PimsOperations.PyStrip | pims/pims/api/operations.py:316 | Python's strip: no longer than the input, with no blank at either end, and an input with no blank at either end is unchanged. |
| PimsOperations.Ungroup | pims/pims/api/operations.py:316 | Dropping the underscores succeeds exactly when the text is digit groups joined by single underscores, and leaves a non-empty run of digits. |
| PimsOperations.UngroupValue | pims/pims/api/operations.py:316 | What the grouping check gives back is the text with every underscore removed and every digit kept in order. |
| PimsOperations.PyInt | pims/pims/api/operations.py:316 | Python's int() on ASCII text succeeds exactly when, after stripping blanks and one optional sign, the rest is digits grouped by single underscores. A leading minus gives a value of at most zero, and anything else a value of at least zero. |
| PimsOperations.PyIntValue | pims/pims/api/operations.py:316 | The value int() gives is the decimal value of the digits with the underscores dropped, negated after a leading minus. |
| PimsOperations.PyIntOfRendered | pims/pims/api/operations.py:316 | A decimal rendering of any integer parses back to that integer. |
| PimsOperations.PyIntIgnoresBlanks | pims/pims/api/operations.py:316 | Surrounding blanks do not change the parsed value. |
| PimsOperations.UngroupDigits | pims/pims/api/operations.py:316 | Plain digits pass the grouping unchanged. |
| PimsOperations.PyIntGroups | pims/pims/api/operations.py:316 | "1_000" reads as 1000: underscores between digit groups are dropped. |
| PimsOperations.PyIntThreeGroups | pims/pims/api/operations.py:316 | "1_2_3" reads as 123: every digit group counts. |
| PimsOperations.PyIntZerosAndPlus | pims/pims/api/operations.py:316 | "007" reads as 7 and "+5" as 5. |
| PimsOperations.PyIntBadGroups | pims/pims/api/operations.py:316 | A doubled, leading or trailing underscore is refused. |
| PimsOperations.ResolveStorage | pims/pims/api/operations.py:307-309 | "idStorage" is preferred over "storage". A missing or zero storage id is refused with its message. |
| PimsOperations.ParseIds | pims/pims/api/operations.py:316 | The id list parses exactly when every piece is an integer, and then element by element. |
| PimsOperations.ParseProjects | pims/pims/api/operations.py:311-318 | "idProject" is preferred over "projects". A missing or empty value gives no projects. Otherwise it parses exactly when every comma-separated piece does, and is refused with its message if not. |
| PimsOperations.ProjectsRoundTrip | pims/pims/api/operations.py:311-318 | A non-empty list of project ids, joined with commas, parses back to the same list. |
| PimsOperations.UserProperties | pims/pims/api/operations.py:347-351 | Keys and values are split on commas and paired in order. Lists of different lengths are a problem. |
| PimsOperations.EmptyKeysIsOneKey | pims/pims/api/operations.py:347-350 | An empty "keys" is one empty key, not none, so it pairs with exactly one value. |
| PimsOperations.MissingProject | pims/pims/api/operations.py:341-345 | A missing project is reported exactly when some requested id is unknown, and the reported id is such an id. |
| PimsOperations.ConnexionToCore | pims/pims/api/operations.py:299-362 | A missing core URL is refused first, then a missing storage. Success requires: a parsed storage and project list; paired user properties; a logged-in core; a well-formed authorization header whose public key is known; and a signature of the request token equal to the one sent. The storage and every project must exist. |
| PimsOperations.ForgedSignatureRefused | pims/pims/api/operations.py:331-332 | A request whose signature is not the signature of its token under the key's private key is refused. |
| PimsOperations.ExportName | pims/pims/api/operations.py:209-226 | The suggested name, or the path's own name, is kept for a file. For a directory it gains ".zip" unless it already ends with it. |
| PimsOperations.ExportNameIdempotent | pims/pims/api/operations.py:253-271 | Exporting under a name that an export produced keeps that name. |
| SamPrompts.Trunc | sam/app/utils/align_prompts.py:40 | A cast to int32 truncates toward zero. |
| SamPrompts.CentredStart | sam/app/annotations/segmentation.py:43-46 | The window start centres the annotation: it is the floor of the low edge minus half the spare room. |
| SamPrompts.RoiAroundAnnotation | sam/app/annotations/segmentation.py:17-53 | The corner is never negative. It keeps the window inside the image when the image is large enough, and is 0 when the window is larger than the image. A centred start that already fits is kept. The y axis is flipped. |
| SamPrompts.WindowCoversAnnotation | sam/app/annotations/segmentation.py:17-53 | An annotation that fits in a window that fits in the image lies wholly inside the chosen window. |
| SamPrompts.PromptScale | sam/app/annotations/segmentation.py:84-93 | The scale is 1 up to 8000 pixels, and above that it shrinks the crop to exactly 8000. |
| SamPrompts.AlignBoxPrompt | sam/app/utils/align_prompts.py:6-40 | At scale 1, x moves by the window corner, and y is flipped by the image height and then moved by the corner. |
| SamPrompts.AlignKeepsOrder | sam/app/utils/align_prompts.py:30-40 | Positive scales keep an ordered box ordered. |
| SamPrompts.AlignInvolutive | sam/app/utils/align_prompts.py:30-40 | With no offset and scale 1, aligning twice gives back the box. |
| SamPrompts.BoundsBox | sam/app/annotations/segmentation.py:73 | The box's integer bounds are the float bounds truncated. |
| SamPrompts.SegmentationPrompt | sam/app/annotations/segmentation.py:73-95 | The prompt uses the annotation's window corner and the crop's scale. |
| SamPrompts.PromptInsideWindow | sam/app/annotations/segmentation.py:73-95 | For an annotation that fits in a window inside the image, the aligned prompt lies within the scaled window. |
| StoreHelpers.ConvertToArrayPath | web-ui/ui-v3/apps/web-antd/src/utils/migrated/store-helpers.ts:241-252 | A falsy path is empty, and an array is kept. A string becomes slash-free parts that join back to it. |
| StoreHelpers.BuildFullPath | web-ui/ui-v3/apps/web-antd/src/utils/migrated/store-helpers.ts:254-260 | Without a root-module property the path is unchanged. Otherwise it is prefixed by the root module's path, and the path always ends the result. |
| StoreHelpers.Step | web-ui/ui-v3/apps/web-antd/src/utils/migrated/store-helpers.ts:262-268 | One property read: a present key gives its value, and a missing key or non-object gives undefined. Reading from undefined or null throws. |
| StoreHelpers.FollowConcat | web-ui/ui-v3/apps/web-antd/src/utils/migrated/store-helpers.ts:262-268 | Following a concatenated path is following one part after the other. |
| StoreHelpers.ThrownStays | web-ui/ui-v3/apps/web-antd/src/utils/migrated/store-helpers.ts:262-268 | Once a read has thrown, the rest of the path does not matter. |
| StoreHelpers.RootedLookup | web-ui/ui-v3/apps/web-antd/src/utils/migrated/store-helpers.ts:254-268 | A lookup under a root-module property is the lookup of the path inside the root module's value. |
| StoreHelpers.Capitalise | web-ui/ui-v3/apps/web-antd/src/utils/migrated/store-helpers.ts:273 | Only the first character is upper-cased, and the length is kept. |
| StoreHelpers.MutationName | web-ui/ui-v3/apps/web-antd/src/utils/migrated/store-helpers.ts:270-274 | An empty path has no mutation name. A single property "p" gives "/setP". |
| StoreHelpers.MutationNameSplits | web-ui/ui-v3/apps/web-antd/src/utils/migrated/store-helpers.ts:270-274 | With slash-free parts, the mutation name splits back into the module path and "set" plus the capitalised property. A top-level property has an empty module part. |
| StoreHelpers.FilterMutation | web-ui/ui-v3/apps/web-antd/src/utils/migrated/store-helpers.ts:126 | The filter mutation always ends in "/setFilter". |
| StoreHelpers.ReadBounds | web-ui/ui-v3/apps/web-antd/src/utils/migrated/store-helpers.ts:170-173 | A stored bounds filter is read as is, and an inactive one reads as (0, max). |
| StoreHelpers.WriteBounds | web-ui/ui-v3/apps/web-antd/src/utils/migrated/store-helpers.ts:174-178 | The full range (0, max) is stored as inactive, and any other bounds as themselves. |
| StoreHelpers.BoundsRoundTrip | web-ui/ui-v3/apps/web-antd/src/utils/migrated/store-helpers.ts:170-178 | Writing bounds and reading them back gives the same bounds. |
| StoreHelpers.BoundsStoredRoundTrip | web-ui/ui-v3/apps/web-antd/src/utils/migrated/store-helpers.ts:170-178 | Reading a stored value and writing it back stores the same value, unless it was the explicit full range. |
| StoreHelpers.ReadSelection | web-ui/ui-v3/apps/web-antd/src/utils/migrated/store-helpers.ts:220-223 | A stored selection is read as is, and an inactive one reads as all options. |
| StoreHelpers.WriteSelection | web-ui/ui-v3/apps/web-antd/src/utils/migrated/store-helpers.ts:224-228 | A selection as long as the options is stored as inactive, and any other as itself. |
| StoreHelpers.SelectionRoundTrip | web-ui/ui-v3/apps/web-antd/src/utils/migrated/store-helpers.ts:220-228 | A partial selection round-trips. A selection as long as the options reads back as all options, even when it differs from them. |
| StoreHelpers.Debounce | web-ui/ui-v3/apps/web-antd/src/utils/migrated/store-helpers.ts:233-239 | The setter is debounced exactly when a non-zero delay is given, and then with that delay. |
| Viewer.AddImage | web-ui/ui-v3/apps/web-antd/src/store/modules/viewer.ts:49-53 | The new image takes the next index and becomes active, the counter moves on, and the selector closes. |
| Viewer.RegisterImage | web-ui/ui-v3/apps/web-antd/src/store/modules/viewer.ts:55-57 | Only the counter moves on. |
| Viewer.RegisterImageModule | web-ui/ui-v3/apps/web-antd/src/store/modules/viewer.ts:110-115 | The index joins the registered images, and nothing else changes. |
| Viewer.UnregisterImageModule | web-ui/ui-v3/apps/web-antd/src/store/modules/viewer.ts:117-122 | The index leaves the registered images, every other index stays, and nothing else changes. |
| Viewer.RegisterUnregister | web-ui/ui-v3/apps/web-antd/src/store/modules/viewer.ts:110-122 | Registering a new index and unregistering it gives back the state. |
| Viewer.AddImageWithModule | web-ui/ui-v3/apps/web-antd/src/store/modules/viewer.ts:124-142 | The returned index is the old counter. It is active and registered, the counter moves past it, and the links are untouched. |
| Viewer.CreateLinkGroup | web-ui/ui-v3/apps/web-antd/src/store/modules/viewer.ts:77-79 | The group is appended, and the member count grows by its size. |
| Viewer.LinkImageToGroup | web-ui/ui-v3/apps/web-antd/src/store/modules/viewer.ts:81-83 | An index outside the groups throws. Otherwise only that group changes, and the image is appended to it. |
| Viewer.MergeLinkGroups | web-ui/ui-v3/apps/web-antd/src/store/modules/viewer.ts:85-88 | Indexes outside the groups throw. Otherwise one group fewer remains. |
| Viewer.MergeKeepsMembers | web-ui/ui-v3/apps/web-antd/src/store/modules/viewer.ts:85-88 | Merging two different groups keeps every member: the first group holds both, at its index shifted past the removed one. |
| Viewer.MergeWithItselfDropsGroup | web-ui/ui-v3/apps/web-antd/src/store/modules/viewer.ts:85-88 | Merging a group with itself loses that group's members. |
| Viewer.FindGroup | web-ui/ui-v3/apps/web-antd/src/store/modules/viewer.ts:95 | The first group holding the image, or -1 when none does. |
| Viewer.UnlinkImage | web-ui/ui-v3/apps/web-antd/src/store/modules/viewer.ts:90-107 | Without a group, an image in no group changes nothing. A group index outside the groups throws. |
| Viewer.UnlinkZeroIsUnspecified | web-ui/ui-v3/apps/web-antd/src/store/modules/viewer.ts:94 | Group 0 is falsy, so naming it is the same as naming no group. |
| Viewer.UnlinkRemovesOne | web-ui/ui-v3/apps/web-antd/src/store/modules/viewer.ts:90-107 | Unlinking removes one occurrence of the image from its group. A group left with one image is deleted; otherwise only that group changes. |
| Viewer.UnlinkWrongGroupDropsLast | web-ui/ui-v3/apps/web-antd/src/store/modules/viewer.ts:101-103 | Naming a group that lacks the image removes that group's last member, because splice(-1, 1) does. |
| Viewer.GetLinkedIndexes | web-ui/ui-v3/apps/web-antd/src/store/modules/viewer.ts:273-276 | The image's own group when it has one, otherwise the image alone, and always containing the image. |
| Viewer.RemoveImageAtIndex | web-ui/ui-v3/apps/web-antd/src/store/modules/viewer.ts:266-269 | The image is unregistered. An unlinked image leaves the links as they were. |
| ImageStore.SetResolution | web-ui/ui-v3/apps/web-antd/src/store/modules/image.ts:83-90 | Without an image nothing changes. Otherwise exactly the four resolution fields take the given values. |
| ImageStore.TogglePanel | web-ui/ui-v3/apps/web-antd/src/store/modules/image.ts:92-94 | Toggling the open panel closes it, and toggling another opens it. Nothing else changes. |
| ImageStore.ToggleTwice | web-ui/ui-v3/apps/web-antd/src/store/modules/image.ts:92-94 | Toggling twice restores a closed or same panel, and closes a different one. |
| ImageStore.ClearSliceInstances | web-ui/ui-v3/apps/web-antd/src/store/modules/image.ts:96-99 | Both the slices and the loaded pages are emptied, and nothing else changes. |
| ImageStore.SliceInstancesByRank | web-ui/ui-v3/apps/web-antd/src/store/modules/image.ts:101-107 | After storing slices, each rank holds the last given slice of that rank. Ranks not given keep their old slice. |
| ImageStore.SetLoadedSlicePage | web-ui/ui-v3/apps/web-antd/src/store/modules/image.ts:109-111 | The page is appended, and nothing else changes. |
| ImageStore.SetActiveSlice | web-ui/ui-v3/apps/web-antd/src/store/modules/image.ts:113-115 | The active slices become exactly that one slice. |
| ImageStore.SetActiveSlices | web-ui/ui-v3/apps/web-antd/src/store/modules/image.ts:117-119 | The active slices become the given ones. |
| ImageStore.MaxZoom | web-ui/ui-v3/apps/web-antd/src/store/modules/image.ts:169-176 | 0 without an image, otherwise its zoom. |
| ImageStore.MaxRank | web-ui/ui-v3/apps/web-antd/src/store/modules/image.ts:178-183 | 0 without an image, and depth × duration for a single-channel image. |
| ImageStore.ImageGroupId | web-ui/ui-v3/apps/web-antd/src/store/modules/image.ts:185-190 | Null exactly without a group link, otherwise the link's group. |
| ImageStore.Values | web-ui/ui-v3/apps/web-antd/src/store/modules/image.ts:194 | Holds exactly the stored slices. |
| ImageStore.SortByIndex | web-ui/ui-v3/apps/web-antd/src/store/modules/image.ts:206-215 | The sort gives ascending channel indexes, with the same elements and length. |
| ImageStore.Channels | web-ui/ui-v3/apps/web-antd/src/store/modules/image.ts:192-216 | One entry per channel present in the slices, in ascending channel order. |
| ImageStore.ChannelsFromFirstSlice | web-ui/ui-v3/apps/web-antd/src/store/modules/image.ts:198-213 | Each channel entry is taken from the first slice of that channel in rank order. |
| CurrentProject.ResetState | web-ui/ui-v3/apps/web-antd/src/store/modules/current-project.ts:57-59 | After a reset there is no project, ontology or viewer, no managers or members, and an empty UI configuration. |
| CurrentProject.ManagersOf | web-ui/ui-v3/apps/web-antd/src/store/modules/current-project.ts:151-152 | The managers are exactly the members whose role is manager or representative. |
| CurrentProject.CanEditLayer | web-ui/ui-v3/apps/web-antd/src/store/modules/current-project.ts:185-197 | Nobody edits without a user and a project. An admin always may. A non-guest manager always may. Anyone with a writable project may edit their own layer, or any layer of an unrestricted project; no one else may. |
| CurrentProject.CanEditImage | web-ui/ui-v3/apps/web-antd/src/store/modules/current-project.ts:217-229 | As for layers, except that a guest who is not an admin never may: an admin always may, a non-guest manager always may, and a non-guest with a writable project may edit their own image or any image of an unrestricted project. |
| CurrentProject.ImageRightsAreLayerRights | web-ui/ui-v3/apps/web-antd/src/store/modules/current-project.ts:185-229 | Whoever may edit an image may edit the layer of its owner. For a non-guest, the two rights coincide. |
| CurrentProject.CanManageProject | web-ui/ui-v3/apps/web-antd/src/store/modules/current-project.ts:231-242 | Managing requires a user who is an admin, or a non-guest manager. |
| CurrentProject.ManagersEditEveryLayer | web-ui/ui-v3/apps/web-antd/src/store/modules/current-project.ts:185-242 | Whoever manages an open project may edit every layer in it. |
| CurrentProject.CanEditAnnot | web-ui/ui-v3/apps/web-antd/src/store/modules/current-project.ts:200-215 | Without a user, nobody edits. A reviewed annotation is editable by an admin, or by its non-guest reviewer. Any other annotation is editable exactly when its user's layer is. |
| CurrentProject.CanEditAnnotAsWritten | web-ui/ui-v3/apps/web-antd/src/store/modules/current-project.ts:200-215 | Without a user, or for a reviewed annotation, the outcome is the intended one. |
| CurrentProject.NonReviewedThrowsAsWritten | web-ui/ui-v3/apps/web-antd/src/store/modules/current-project.ts:213 | As written, a non-reviewed annotation throws even for an admin, whom the intended check lets edit. |
| CurrentProject.ReviewedOnlyByReviewer | web-ui/ui-v3/apps/web-antd/src/store/modules/current-project.ts:208-210 | A reviewed annotation is closed to every non-admin but its reviewer. |
| CurrentProject.Contributors | web-ui/ui-v3/apps/web-antd/src/store/modules/current-project.ts:244-247 | The contributors are exactly the members who are not managers. |
| CurrentProject.CurrentProjectModule | web-ui/ui-v3/apps/web-antd/src/store/modules/current-project.ts:254-259 | Null exactly without a project. Otherwise "projects/<id>/". |
| CurrentProject.ProjectModuleNamesProject | web-ui/ui-v3/apps/web-antd/src/store/modules/current-project.ts:254-259 | The project id can be read back from the module name. |
| CurrentProject.CurrentViewerModule | web-ui/ui-v3/apps/web-antd/src/store/modules/current-project.ts:266-270 | The viewer module sits under the project module, or at top level without a project. It reads "viewers/null/" when no viewer is set. |
| AnnotationUtils.AnnotBelongsToLayer | web-ui/ui-v3/apps/web-antd/src/utils/migrated/annotation-utils.ts:104-115 | An annotation on another slice belongs to no layer. One with a user belongs to the review layer exactly when reviewed, and otherwise to its user's layer when not reviewed. One without a user belongs to the layer of its annotation layer. |
| AnnotationUtils.ReviewAndUserLayersDisjoint | web-ui/ui-v3/apps/web-antd/src/utils/migrated/annotation-utils.ts:104-115 | An annotation with a user never belongs to both the review layer and a user layer. |
| AnnotationUtils.UpdateTermProperties | web-ui/ui-v3/apps/web-antd/src/utils/migrated/annotation-utils.ts:35-48 | The terms are exactly those of the annotation terms, each once, in the order of their first appearance. Each term's user list holds the users of its annotation terms, in order. |
| AnnotationUtils.FilterTerm | web-ui/ui-v3/apps/web-antd/src/utils/migrated/annotation-utils.ts:40-47 | The annotation terms of one term are exactly those of the list with that term. |
| AnnotationUtils.UsersOfCountsAll | web-ui/ui-v3/apps/web-antd/src/utils/migrated/annotation-utils.ts:40-47 | Each annotation term of a term contributes exactly one user to it. |
| TokenUtils.Utf8Bytes | web-ui/ui-v3/apps/web-antd/src/utils/migrated/token-utils.ts:27 | A character encodes to one to four bytes, and an ASCII character to itself. |
| TokenUtils.EncodeUri | web-ui/ui-v3/apps/web-antd/src/utils/migrated/token-utils.ts:27 | encodeURI's output only holds unreserved characters, '%' and hex digits, and is never shorter than its input. |
| TokenUtils.EncodeUriDecodes | web-ui/ui-v3/apps/web-antd/src/utils/migrated/token-utils.ts:27 | Percent-decoding the encoding gives the input's UTF-8 bytes. |
| TokenUtils.EncodeUriKeepsUnescaped | web-ui/ui-v3/apps/web-antd/src/utils/migrated/token-utils.ts:27 | Text made only of characters encodeURI leaves alone is unchanged. |
| TokenUtils.EncodeUriConcat | web-ui/ui-v3/apps/web-antd/src/utils/migrated/token-utils.ts:27 | Encoding works character by character. |
| TokenUtils.AppendShortTermToken | web-ui/ui-v3/apps/web-antd/src/utils/migrated/token-utils.ts:20-29 | A missing URL or token leaves the URL as it is. A URL without a query gets "?Authorization=Bearer <token>" unencoded. One with a query gets "&Authorization=" and the encoded bearer. |
| TokenUtils.AppendToQuery | web-ui/ui-v3/apps/web-antd/src/utils/migrated/token-utils.ts:26-28 | For a URL with a query and a plain token, the result is "&Authorization=Bearer%20<token>". |
| Draw.KeepExisting | web-ui/ui-v3/apps/web-antd/src/store/modules/draw.ts:53-65 | The kept ids are exactly those that still exist. |
| Draw.KeepIsSubsequence | web-ui/ui-v3/apps/web-antd/src/store/modules/draw.ts:53-65 | Filtering keeps the order of the ids. |
| Draw.KeepIdempotent | web-ui/ui-v3/apps/web-antd/src/store/modules/draw.ts:53-65 | Filtering twice is filtering once. |
| Draw.FilterTermsNewAnnots | web-ui/ui-v3/apps/web-antd/src/store/modules/draw.ts:53-56 | Only terms that still exist stay selected for new annotations, and nothing else changes. |
| Draw.FilterTracksNewAnnots | web-ui/ui-v3/apps/web-antd/src/store/modules/draw.ts:62-65 | Only tracks that still exist stay selected for new annotations, and nothing else changes. |
| Draw.FilterTermsProperties | web-ui/ui-v3/apps/web-antd/src/store/modules/draw.ts:53-56 | The filtered selection keeps its order, and filtering again changes nothing. |
| Draw.FilterTracksProperties | web-ui/ui-v3/apps/web-antd/src/store/modules/draw.ts:62-65 | The same for tracks. |
| AppStores.Set | web-ui/ui-v3/apps/web-antd/src/store/modules/app-stores.ts:34-36 | The stores become the given list. |
| AppStores.Add | web-ui/ui-v3/apps/web-antd/src/store/modules/app-stores.ts:38-40 | The store is appended after the existing ones. |
| AppStores.Delete | web-ui/ui-v3/apps/web-antd/src/store/modules/app-stores.ts:42-44 | Exactly the stores with another id remain. |
| AppStores.Reset | web-ui/src/store/modules/app-stores.js:23-25 | Resetting gives the initial, empty state. |
| AppStores.WithoutConcat | web-ui/ui-v3/apps/web-antd/src/store/modules/app-stores.ts:42-44 | Deletion works list segment by list segment. |
| AppStores.DeleteIdempotent | web-ui/ui-v3/apps/web-antd/src/store/modules/app-stores.ts:42-44 | Deleting twice is deleting once. |
| AppStores.DeleteUndoesAdd | web-ui/src/store/modules/app-stores.js:15-21 | Adding a store and then deleting it is the same as just deleting it. |
| AppStores.AddThenDeleteRestores | web-ui/src/store/modules/app-stores.js:15-21 | Adding a store with a fresh id and deleting it restores the state. |
| AppUtils.HasBinaryType | web-ui/src/utils/app.js:39-42 | A non-array type is binary exactly when it is "file" or "image". An array is binary exactly when its element type is. An array without an element type throws. |
| AppUtils.ArrayNotBinaryItself | web-ui/src/utils/app.js:11 | "array" is not a binary type itself. |
| AppUtils.AppPath | web-ui/src/utils/app.js:15 | "<namespace>/<version>". |
| AppUtils.AppPathSplits | web-ui/src/utils/app.js:15 | A namespace and a version without '/' are recovered from the path. |
| AppUtils.DeletePath | web-ui/src/utils/app.js:16 | The deletion path is the app path under "/app-engine/tasks/". |
| AppUtils.InstallPath | web-ui/src/utils/app.js:28 | The installation path is the deletion path followed by "/install". |
| AppUtils.InstallPathInjective | web-ui/src/utils/app.js:25-28 | Different apps, with no '/' in their names, never share an installation path. |
| AppUtils.InstallApp | web-ui/src/utils/app.js:25-37 | Installation returns true exactly when the request succeeds, with the success notice, and otherwise false with the error notice. |
| AppUtils.DeleteApp | web-ui/src/utils/app.js:13-23 | Deletion notifies success exactly when the request succeeds. |
| WebTaskRun.ParseState | web-ui/src/utils/appengine/task-run.js:7-18 | A known state name reads back as the state with that name. |
| WebTaskRun.EightStates | web-ui/src/utils/appengine/task-run.js:7-18 | There are eight states, with distinct names, and each name parses back to its state. |
| WebTaskRun.IsTerminalState | web-ui/src/utils/appengine/task-run.js:20-25 | A run is terminal exactly when it has failed or finished. |
| WebTaskRun.FinishedIsTerminal | web-ui/src/utils/appengine/task-run.js:62-68 | A finished run is terminal; a run without a state, or still waiting or running, is not. |
| WebTaskRun.Uri | web-ui/src/utils/appengine/task-run.js:32-43 | Without a project (or with the falsy project 0) it throws. Otherwise the path is under "/app-engine/project/", and a new run's path ends in "/task-runs". |
| WebTaskRun.SavedRunBelowCollection | web-ui/src/utils/appengine/task-run.js:36-42 | A saved run's path is its collection path followed by "/<id>". |
| WebTaskRun.Start | web-ui/src/utils/appengine/task-run.js:82-85 | Starting fails exactly when the path does. Otherwise it posts to a path below the run's, asking for RUNNING. |
| WebTaskRun.FetchInputs | web-ui/src/utils/appengine/task-run.js:87-92 | A created run fetches nothing. Otherwise fetching throws exactly when the path does, or gets "<uri>/inputs". |
| WebTaskRun.FetchOutputs | web-ui/src/utils/appengine/task-run.js:105-110 | Only a finished run fetches, and it gets "<uri>/outputs". |
| WebTaskRun.OutputsImplyInputs | web-ui/src/utils/appengine/task-run.js:87-110 | Whenever outputs are fetched, inputs are too. |
| WebTaskRun.BinaryParams | web-ui/src/utils/appengine/task-run.js:94 | The parameters fetched one by one are exactly those whose lower-cased type is binary. |
| WebTaskRun.BinaryTypesIgnoreCase | web-ui/src/utils/appengine/task-run.js:94 | Upper-case binary type names are fetched too. |
| WebTaskRun.SingleIoPath | web-ui/src/utils/appengine/task-run.js:123-126 | "<uri>/<kind>/<name>". |
| ListFilters.IsEmptyActive | web-ui/ui-v3/apps/web-antd/src/store/modules/list-projects.ts:107-109 | A filter counts as active but empty exactly when its value is the empty array. |
| ListFilters.NbActive | web-ui/ui-v3/apps/web-antd/src/store/modules/list-projects.ts:103-105 | The active filters are counted, never more than there are filters. |
| ListFilters.EmptyAmongActive | web-ui/ui-v3/apps/web-antd/src/store/modules/list-projects.ts:103-109 | Every filter counted as empty is also counted as active. |
| ListFilters.NoneActive | web-ui/ui-v3/apps/web-antd/src/store/modules/list-projects.ts:103-105 | No filter is active exactly when every value is falsy. |
| ListFilters.NullFilters | web-ui/ui-v3/apps/web-antd/src/store/modules/list-projects.ts:44-52 | A record of null filters has the given names, and none of them is active or empty. |
| ListFilters.SetFilter | web-ui/ui-v3/apps/web-antd/src/store/modules/list-projects.ts:77-79 | The named filter takes the value, and every other filter keeps its own. A known name keeps the names; an unknown one is added at the end. Distinct names stay distinct. |
| ListFilters.SetFilterCount | web-ui/ui-v3/apps/web-antd/src/store/modules/list-projects.ts:77-105 | Setting a filter changes the active count by that filter alone: the old value's share goes and the new value's comes. |
| ListProjects.DefaultState | web-ui/ui-v3/apps/web-antd/src/store/modules/list-projects.ts:40-59 | The seven project filters, all inactive. First page of ten, with the latest activity first. |
| ListProjects.ResetState | web-ui/ui-v3/apps/web-antd/src/store/modules/list-projects.ts:65-67 | The default state, whatever the state was, with no active or empty filter. |
| ListProjects.SetFilter | web-ui/ui-v3/apps/web-antd/src/store/modules/list-projects.ts:77-79 | Only the named filter changes. |
| ListProjects.NbActiveFilters | web-ui/ui-v3/apps/web-antd/src/store/modules/list-projects.ts:103-105 | No filter is active exactly when every value is falsy. |
| ListProjects.NbEmptyFilters | web-ui/ui-v3/apps/web-antd/src/store/modules/list-projects.ts:107-109 | Never more empty filters than active ones. |
| ListProjects.OneTagFilterActive | web-ui/ui-v3/apps/web-antd/src/store/modules/list-projects.ts:77-109 | Selecting some tags from the default state makes exactly one filter active, and none empty. |
| ListImages.InitialState | web-ui/ui-v3/apps/web-antd/src/store/modules/list-images.ts:42-62 | Nine null filters, first page of ten, ascending with no sort field. |
| ListImages.SetFilter | web-ui/ui-v3/apps/web-antd/src/store/modules/list-images.ts:73-75 | Only the named filter changes, and a known name keeps the names. |
| ListImages.NbActiveFilters | web-ui/ui-v3/apps/web-antd/src/store/modules/list-images.ts:99-101 | No filter is active exactly when every value is falsy. |
| ListImages.NbEmptyFilters | web-ui/ui-v3/apps/web-antd/src/store/modules/list-images.ts:103-105 | Never more empty filters than active ones. |
| ListImages.KnownFiltersStayNine | web-ui/ui-v3/apps/web-antd/src/store/modules/list-images.ts:73-101 | Setting known filters keeps the nine names, so at most nine are active. |
| ListImageGroups.InitialState | web-ui/ui-v3/apps/web-antd/src/store/modules/list-image-groups.ts:39-54 | Two inactive filters, sorted by name ascending, first page of ten. |
| ListImageGroups.SetFilter | web-ui/ui-v3/apps/web-antd/src/store/modules/list-image-groups.ts:65-67 | Only the named filter changes, and a known name keeps the names. |
| ListImageGroups.SetSort | web-ui/ui-v3/apps/web-antd/src/store/modules/list-image-groups.ts:77-79 | Field and order are replaced together, and nothing else changes. |
| ListImageGroups.NbEmptyFilters | web-ui/ui-v3/apps/web-antd/src/store/modules/list-image-groups.ts:91-93 | Never more empty filters than active ones. |
| ListImageGroups.CountsBounded | web-ui/ui-v3/apps/web-antd/src/store/modules/list-image-groups.ts:65-93 | While only the two known filters are set, empty ≤ active ≤ 2. |
| ListImageGroups.UnknownFilterIsAdded | web-ui/ui-v3/apps/web-antd/src/store/modules/list-image-groups.ts:65-67 | Setting an unknown filter name adds it to the record. |
| ListAnnotations.InitialState | web-ui/ui-v3/apps/web-antd/src/store/modules/list-annotations.ts:42-62 | 25 per page, the seven annotation filters inactive, and every other option null. |
| ListAnnotations.SetFilter | web-ui/ui-v3/apps/web-antd/src/store/modules/list-annotations.ts:85-87 | Only the named filter changes. |
| ListAnnotations.ResetPagesAndFilters | web-ui/ui-v3/apps/web-antd/src/store/modules/list-annotations.ts:101-117 | Filters, dates and pages are cleared and regrouping is switched off, while the display options stay. |
| ListAnnotations.ResetIsNotInitial | web-ui/ui-v3/apps/web-antd/src/store/modules/list-annotations.ts:42-117 | A reset does not lead back to the initial state, because regrouping becomes false rather than null. Resetting twice is resetting once. |
| ListAnnotations.SetCurrentPage | web-ui/ui-v3/apps/web-antd/src/store/modules/list-annotations.ts:119-121 | Only the given group's page changes. |

## Left out

- HTTP clients and controllers (the app-engine, retrieval and AI-runner services, the task controllers, the PIMS upload and export endpoints): network plumbing. Their answers are parameters.
- Databases and repositories (JPA `save`, `findBy…`, `@Transactional`): these become maps or sequences passed in and returned. Only the idempotence checks of `persistProvision` and `persistResult` are modelled: an existing record is kept with its flag.
- Zip and multipart streaming, file copying, CRC32 computation and `ImageType.unzip`: byte I/O. Archive entries are given as names and contents. Whether writing an entry or computing its CRC32 fails is given with each entry (`RunLifecycle.Entry.io`) and with each output reading.
- `ImageFormatFactory.getGenericFormat` only creates a fresh object; the `GENERIC` format value stands for it.
- The JDK's `Double.parseDouble` is a parameter giving the double a text denotes, or nothing where it throws, and `Instant.parse` is a parameter giving the texts it accepts. A fractional JSON number holds its value as an unbounded real, already rounded by whoever built the tree, with its `Double.toString` text alongside. `NumberType` validation, colour manipulation, similarity processing, the viewer's centre, zoom and rotation syncing, and histogram rescaling and colour-space building: these rely on IEEE doubles, trigonometry, numpy or zarr. Where the model keeps a number (SAM scales, histogram bounds), it uses an unbounded real without rounding.
- HMAC `sign_token`, XML schema validation, shapely/WKT/GeoJSON parsing, cv2 `mask_to_polygon`, DICOM parsing and the `Unit` size parser: these are foreign libraries and become function parameters. SAM mask post-processing is not modelled.
- `get_images` parses the dataset's XML. The IMAGE_REF aliases it would return, in document order, are given to `Run` as a sequence.
- pydantic validation beyond the one case of Finding 6: result records are plain datatypes.
- The scanner's threading, Redis and real time: one sequential cycle against a set-if-absent lock, with the clock and the stop event as parameters. `iter_importable_files`, `FileImportCache` and `process_import_batch` are not part of this model: a cycle reports what it would hand to them.
- SAM: casting an out-of-range value to a 32-bit integer and float rounding are not modelled. Casts truncate toward zero on unbounded values.
- StoreHelpers.Capitalise: upper-cases ASCII letters only, where `toUpperCase` also maps other scripts.
- store-helpers `get`, `sync` and `syncFilter` are Vue computed-property wiring. Their paths and mutation names are modelled by `GetValue`, `BuildFullPath` and `MutationName`, and the filter normalisation by the bounds and selection round-trips.
- viewer: `setCenter`, `setZoom` and `setRotation` (floating-point view state). Also `setImageResolution`, `addTermToAllImages`, `refreshTracksForImage`, `refreshAllImageData`, `pathModule` and the other module getters, which dispatch into per-image modules, plus `copiedAnnot` and the plain setters.
- image.ts: `initialize`, `refreshData` and `fetchSliceInstancesAround` call the server. The plain setters and the rank-keys getter only copy values.
- Plain-assignment setters and server fetches of current-project (61-83 and the `fetch…` actions), draw (37-51), list-annotations (65-99), and the list stores' `setFiltersOpened`, `setCurrentPage`, `setPerPage`, `setSortField` and `setSortOrder`: each stores its argument and has nothing to prove.
- annotation-utils `updateTrackProperties`, `updateAnnotationLinkProperties` and `listAnnotationsInGroup` call the server.
- TokenUtils.EncodeUri: models `encodeURI` on well-formed text only; a lone surrogate, which makes `encodeURI` throw, is not modelled.
- app-stores.ts declares a getter and a state field both named `stores`. The model keeps one list and reads it through the getter.
- A web task run counts as new while it has no id.
- WebTaskRun.ParseState: returns None for a state string outside the eight; what the UI does with such a string is not modelled.
- task-run.js `batchProvisionTask`, `singleProvisionTask` and `fetchByProject`: HTTP requests with no logic of their own.
- TemporaryAccessTokenService `listByProject` and `delete`: repository calls.
- TaskRunService's other forwarding methods (`getTaskRuns`, `getImageAnnotation` and the like): HTTP forwarding.
- Vue components, routes, Keycloak setup, DTO records, the setter-only stores (colors, view, current-user) and the field-copy factories `TaskInputFactory` and `TaskOutputFactory`: declarations without behaviour.
- ImageStore.MaxRank: states only the image-free and single-channel cases. The general product depth × duration × channels would restate the body.
- Case folding (`equalsIgnoreCase`, `toUpperCase` and `toLowerCase` in Java and JavaScript, `lower` in Python) is modelled on ASCII letters only. Java also folds some other letters onto ASCII ones, such as the dotless 'ı' onto 'I' and the long 'ſ' onto 'S', and folds letters of other scripts among themselves. This touches `ProvisioningStatus`, `Names`, `IsDescriptorEntry`, `BinaryParams` and `HeaderGet` as well as the three members below.
- GetParameter: matches names ignoring the case of ASCII letters only, so a parameter "ınput" does not match "INPUT" as it does in Java.
- CheckTimeFor: recognises "inputs" and "outputs" ignoring the case of ASCII letters only, so "ınputs" is UNDEFINED here and an input match in Java.
- GetFormat: upper-cases ASCII letters only, so "tıff" or a name spelled with the "ﬀ" ligature finds no format here, while Java's `toUpperCase` turns them into "TIFF".
- CheckFile: ZIP entries go through the corrected DICOM header check `ImageFormats.HeaderCheck` (see Findings), not the as-written `validateDicomHeader` the source calls. A ZIP whose only entry is the 4 bytes "DICM" passes in the source and is refused here, and an entry shorter than 4 bytes crashes in the source and is refused here with INVALID_IMAGE_FORMAT.
- Validate: inherits CheckFile's corrected header check for ZIP files.
- ValidateOutput: inherits CheckFile's corrected header check for ZIP outputs.
- CreateTokenFromJson: is built on the intended expiry `AccessTokens.Expiry` (see Findings). The source's JSON path reaches the same 32-bit `hours * 60 * 60`, so from 596524 hours on its token is born expired, while the model's lasts the hours asked for.
- PyInt: accepts ASCII digits and strips ASCII blanks only. Python's `int()` also reads the decimal digits of other scripts and strips other Unicode white space, such as U+00A0 and U+2003. ParseProjects and ConnexionToCore inherit this.
- FeatureToWkt: the geojson library's coercion is modelled for the "properties" of an object typed "Feature" only. Its Feature factory also stores a falsy "geometry" as null, which `shape` then refuses. Since `shape` is a total parameter here, such a feature converts in the model.
- GeoJsonToWkt: the geojson library is not part of this model beyond the coercions stated. An object whose "type" names no geojson class, and a collection member the library refuses to coerce, are converted here as plain objects.
- ReadValue: reads integer items with ASCII digits only. Java's `Integer.parseInt` also reads the decimal digits of other scripts, so an item file holding "３" is the integer 3 in the source and crashes here. Gather, which reads item file names the same way, and CollectionNaming.ReadSize, which reads array.yml sizes, inherit this.
- CheckAgainst: parses an index with ASCII digits only, while `Integer.parseInt` also reads the digits of other scripts ("３" is 3). No such index reaches the check in the source, because every caller first matches the path against the ASCII pattern `[0-9]` (CollectionIndex.CheckedPiecesParse). Given such text directly, CheckAgainst, ValidateParents and ValidateIndexes refuse it where Java would read it.
- SetConstraint: parses a size bound with ASCII digits only, so a bound written "３" throws here and is 3 in the source. TypeFactory.CreateType, which refuses an array on such a bound, inherits this.
- AnnotBelongsToLayer: an `annotationLayer` property holding null, on which the source's `.id` read throws a TypeError, is not modelled; None stands for an undefined property.
- UserProperties: quotes every key and value with single quotes in its message. Python's `repr` switches to double quotes for text holding a single quote, and escapes backslashes and control characters.
- Persist: when a GeoJSON collection (a GeometryCollection or FeatureCollection provision) already has a record, `persistNode` returns null and the following save fails (CollectionType.java:805-822). The model keeps the existing record instead.
- PostOutputs: an IOException while reading the archive itself (`getNextZipEntry`) is not modelled. Only a failed write of a claimed entry (`WriteFails`) gives the rethrown runtime exception.

## Findings

| source | as written | input that shows it | evidently intended | confidence | as-written member | corrected member |
|---|---|---|---|---|---|---|
| app-engine/src/main/java/be/cytomine/appengine/services/TaskProvisioningService.java:441-465 | `validateParents` checks the index at depth i against the maxSize of the level above it (depth i-1); the first index is checked against the collection itself | index path "0/5" on a collection of at most 10 collections of at most 2 items: 5 passes | each index is checked against the maxSize of the level it indexes | not executed | CollectionIndex.OutOfBoundsInnerIndexAccepted | CollectionIndex.ValidateIndexes |
| app-engine/src/main/java/be/cytomine/appengine/models/task/collection/CollectionType.java:382-441 | `validateNode` moves its tracking type one level down on entering a sub-list and never moves it back, so the second sub-list is walked with the leaf type and the cast to `CollectionType` fails | `[[{"value": 1}], [{"value": 3}]]` on a collection of collections of integers | every sub-list is walked with the same element type | not executed | CollectionNodes.SecondSublistCrashes | CollectionNodes.CheckNode |
| app-engine/src/main/java/be/cytomine/appengine/models/task/collection/CollectionType.java:209-301 | `validateFiles` puts the `array.yml` maps into the list it size-checks, so they count as items | an output with two items and its array.yml on a collection of at most 2 integers: refused as INVALID_COLLECTION_DIMENSIONS | only the items are counted | not executed | CollectionFiles.FullOutputRefused | CollectionFiles.ValidateFilesCorrected |
| app-engine/src/main/java/be/cytomine/appengine/models/task/formats/DicomFormat.java:57-71 | `validateDicomHeader` reads up to 132 bytes and compares the last 4 bytes read with "DICM", whatever their offset; an entry shorter than 4 bytes makes `copyOfRange` start below 0 and throw | a 4-byte entry "DICM" passes; a 2-byte entry crashes | the magic is checked at offset 128, after the preamble, and a short entry is refused as INVALID_IMAGE_FORMAT | not executed | ImageFormats.ShortEntryPassesHeaderCheck | ImageFormats.HeaderCheck |
| core/src/main/java/be/cytomine/service/security/TemporaryAccessTokenService.java:41-66 | `hours * 60 * 60` is computed in 32-bit int before the widening to long | hours = 596524: the product wraps negative and the token is born expired | the lifetime is `hours` hours | not executed | AccessTokens.WrappedTokenBornExpired | AccessTokens.CreatedTokenLifetime |
| pims/pims/importer/image.py:75-90 | a failed import builds its result with `message=e`, an exception, for a field typed `Optional[str]`, which pydantic refuses with a ValidationError | any image whose import procedure raises | the failure is reported with the exception's text | not executed | ImageImport.FailedImportRaisesAsWritten | ImageImport.ImportImage |
| web-ui/ui-v3/apps/web-antd/src/store/modules/current-project.ts:199-215 | `canEditAnnot` calls `this.canEditLayer` inside an arrow-function getter, where `this` is undefined, so it throws a TypeError | any non-reviewed annotation with a signed-in user | the non-reviewed case follows `canEditLayer` for the annotation's layer | not executed | CurrentProject.NonReviewedThrowsAsWritten | CurrentProject.CanEditAnnot |
