/**
 * The app-engine's error codes and the static table that gives each registered code
 * its public code string and message (ErrorDefinitions). Several codes share one code
 * string; five codes used by the services have no entry at all.
 */
module ErrorCodes {
  import opened Wrappers

  /** Every `ErrorCode` constant the modelled services refer to, with its source name. */
  datatype ErrorCode =
    | INTERNAL_DESCRIPTOR_EXTRACTION_FAILED
    | INTERNAL_DESCRIPTOR_NOT_IN_DEFAULT_LOCATION
    | INTERNAL_DOCKER_IMAGE_EXTRACTION_FAILED
    | INTERNAL_DOCKER_IMAGE_MANIFEST_MISSING
    | INTERNAL_DOCKER_IMAGE_TAR_NOT_FOUND
    | INTERNAL_GENERIC_BATCH_ERROR
    | INTERNAL_INVALID_BUNDLE_FORMAT
    | INTERNAL_INVALID_OUTPUT
    | INTERNAL_INVALID_TASK_RUN_STATE
    | INTERNAL_JSON_PROCESSING_ERROR
    | INTERNAL_MAX_UPLOAD_SIZE_EXCEEDED
    | INTERNAL_MISSING_OUTPUTS
    | INTERNAL_NOT_PROVISIONED
    | INTERNAL_PARAMETER_DOES_NOT_EXIST
    | INTERNAL_PARAMETER_AFTER_ERROR
    | INTERNAL_PARAMETER_BEFORE_ERROR
    | INTERNAL_PARAMETER_GEOJSON_PROCESSING_ERROR
    | INTERNAL_PARAMETER_GEOJSON_SUBTYPE_ERROR
    | INTERNAL_PARAMETER_GEQ_VALIDATION_ERROR
    | INTERNAL_PARAMETER_GT_VALIDATION_ERROR
    | INTERNAL_PARAMETER_INFINITY_ERROR
    | INTERNAL_PARAMETER_INVALID_GEOJSON
    | INTERNAL_PARAMETER_INVALID_IMAGE
    | INTERNAL_PARAMETER_INVALID_IMAGE_DIMENSION
    | INTERNAL_PARAMETER_INVALID_IMAGE_FORMAT
    | INTERNAL_PARAMETER_INVALID_IMAGE_HEIGHT
    | INTERNAL_PARAMETER_INVALID_IMAGE_SIZE
    | INTERNAL_PARAMETER_INVALID_IMAGE_SIZE_FORMAT
    | INTERNAL_PARAMETER_INVALID_IMAGE_WIDTH
    | INTERNAL_PARAMETER_LEQ_VALIDATION_ERROR
    | INTERNAL_PARAMETER_LT_VALIDATION_ERROR
    | INTERNAL_PARAMETER_MISSING_RADIUS_ERROR
    | INTERNAL_PARAMETER_NAN_ERROR
    | INTERNAL_PARAMETER_SCHEMA_VALIDATION_ERROR
    | INTERNAL_PARAMETER_TYPE_ERROR
    | INTERNAL_PARAMETER_UNSUPPORTED_GEOMETRY_SUBTYPE
    | INTERNAL_PARAMETER_UNSUPPORTED_GEOMETRY_TYPE
    | INTERNAL_PARAMETER_VALIDATION_ERROR
    | INTERNAL_PROVISIONS_NOT_FOUND
    | INTERNAL_SCHEMA_VALIDATION_ERROR
    | INTERNAL_SERVER_ERROR
    | INTERNAL_UNKNOWN_BUNDLE_ARCHIVE_FORAMT
    | INTERNAL_UNKNOWN_IMAGE_ARCHIVE_FORMAT
    | INTERNAL_UNKNOWN_OUTPUT
    | INTERNAL_TASK_EXISTS
    | INTERNAL_TASK_NOT_FOUND
    | REGISTRY_PUSHING_TASK_IMAGE_FAILED
    | RUN_NOT_FOUND
    | STORAGE_CREATING_STORAGE_FAILED
    | STORAGE_READING_FILE_FAILED
    | STORAGE_STORING_INPUT_FAILED
    | STORAGE_STORING_TASK_DEFINITION_FAILED
    | UNKNOWN_STATE
    | SCHEDULER_UNAUTHENTICATED_OUTPUT_PROVISIONING
    | INTERNAL_MISSING_OUTPUT_FILE_FOR_PARAMETER
    | INTERNAL_OUTPUT_FILE_FOR_PARAMETER_IS_DIRECTORY
    | INTERNAL_EXTRA_OUTPUT_FILES_FOR_PARAMETER
    | INTERNAL_OUTPUT_FILE_FOR_PARAMETER_IS_BLANK
    | INTERNAL_INVALID_INDEXES_PATTERN
    | INTERNAL_NOT_MATCHING_DIFF_SIZE
    | INTERNAL_MISSING_METADATA
    | INTERNAL_INVALID_FEATURE_COLLECTION
    | INTERNAL_WRONG_PROVISION_STRUCTURE
    | INTERNAL_INVALID_COLLECTION_DIMENSIONS
    | INTERNAL_UNKNOWN_PARAMETER
    | INTERNAL_NULL_PROVISION
    | INTERNAL_UNKNOWN_SUBTYPE
    | INTERNAL_INVALID_METADATA
    | INTERNAL_INVALID_STORE_DATA
    | INTERNAL_INVALID_STORE_NOT_FOUND
    | INTERNAL_INVALID_STORE_ALREADY_EXISTS
    | INTERNAL_NOT_MULTIPART
    | INTERNAL_NO_FILE_PARTS_FOUND
    | INTERNAL_NO_FILE_BUT_FORM_FIELD
    | INTERNAL_CRC32_CALC_FAILED
    | APPSTORE_DOWNLOAD_FAILED
    | APPSTORE_NO_DEFAULT_STORE
    | INTERNAL_LOGO_NOT_FOUND
    | INTERNAL_NOT_MATCHING_NOT_ALIGNED_INDEXES
    | INTERNAL_PARAMETER_BASELINE_IMAGE_FAILED
    | INTERNAL_PARAMETER_TYPE_ERROR_NO_DELETE
    | INTERNAL_PARAMETER_TYPE_ERROR_NO_MOVE
    | INTERNAL_PARAMETER_TYPE_ERROR_NO_UNZIP

  /** The public pair a registered code resolves to. */
  datatype MessageCode = MessageCode(code: string, message: string)

  /** `UndefinedCodeException`, raised for a code without a table entry. */
  datatype UndefinedCode = UndefinedCode(code: ErrorCode)

  /** The codes that have no entry in the table. */
  predicate Unregistered(c: ErrorCode) {
    c == INTERNAL_NOT_MATCHING_NOT_ALIGNED_INDEXES
      || c == INTERNAL_PARAMETER_BASELINE_IMAGE_FAILED
      || c == INTERNAL_PARAMETER_TYPE_ERROR_NO_DELETE
      || c == INTERNAL_PARAMETER_TYPE_ERROR_NO_MOVE
      || c == INTERNAL_PARAMETER_TYPE_ERROR_NO_UNZIP
  }

  /** The table itself; None for a code that was never put into it. */
  function Table(c: ErrorCode): (r: Option<MessageCode>)
    ensures r.None? <==> Unregistered(c)
  {
    if Unregistered(c) then None else Some(Entry(c))
  }

  /** The pair registered for a code that has one. */
  function Entry(c: ErrorCode): MessageCode
    requires !Unregistered(c)
  {
    match c
    case INTERNAL_DESCRIPTOR_EXTRACTION_FAILED => MessageCode("APPE-internal-descriptor-extraction-error", "failed to extract descriptor.yml from from bundle")
    case INTERNAL_DESCRIPTOR_NOT_IN_DEFAULT_LOCATION => MessageCode("APPE-internal-bundle-validation-error", "descriptor is not found in the default location")
    case INTERNAL_DOCKER_IMAGE_EXTRACTION_FAILED => MessageCode("APPE-internal-image-extraction-error", "failed to extract docker image tar from bundle")
    case INTERNAL_DOCKER_IMAGE_MANIFEST_MISSING => MessageCode("APPE-internal-bundle-image-validation-error", "image is not invalid manifest is missing")
    case INTERNAL_DOCKER_IMAGE_TAR_NOT_FOUND => MessageCode("APPE-internal-bundle-validation-error", "image not found in configured place in descriptor and not in the root directory")
    case INTERNAL_GENERIC_BATCH_ERROR => MessageCode("APPE-internal-batch-request-error", "Error(s) occurred during a handling of a batch request.")
    case INTERNAL_INVALID_BUNDLE_FORMAT => MessageCode("APPE-internal-bundle-validation-error", "Invalid bundle format")
    case INTERNAL_INVALID_OUTPUT => MessageCode("APPE-internal-task_run-invalid-output-archive", "invalid outputs in archive")
    case INTERNAL_INVALID_TASK_RUN_STATE => MessageCode("APPE-internal-task-run-state-error", "run is in invalid state")
    case INTERNAL_JSON_PROCESSING_ERROR => MessageCode("APPE-internal-task-run-state-error", "unable to process json")
    case INTERNAL_MAX_UPLOAD_SIZE_EXCEEDED => MessageCode("APPE-internal-bundle-validation-error", "maximum upload size for bundle exceeded")
    case INTERNAL_MISSING_OUTPUTS => MessageCode("APPE-internal-task-run-missing-outputs", "some outputs are missing in the archive")
    case INTERNAL_NOT_PROVISIONED => MessageCode("APPE-internal-task-run-provisions-not-found", "not provisioned")
    case INTERNAL_PARAMETER_DOES_NOT_EXIST => MessageCode("APPE-internal-parameter-not-found", "parameter not found")
    case INTERNAL_PARAMETER_AFTER_ERROR => MessageCode("APPE-internal-request-validation-error", "date must be after the defined constraint")
    case INTERNAL_PARAMETER_BEFORE_ERROR => MessageCode("APPE-internal-request-validation-error", "date must be before the defined constraint")
    case INTERNAL_PARAMETER_GEOJSON_PROCESSING_ERROR => MessageCode("APPE-internal-request-validation-error", "failed to parse the given GeoJSON object")
    case INTERNAL_PARAMETER_GEOJSON_SUBTYPE_ERROR => MessageCode("APPE-internal-request-validation-error", "unsupported GeoJSON subtype")
    case INTERNAL_PARAMETER_GEQ_VALIDATION_ERROR => MessageCode("APPE-internal-request-validation-error", "value must be greater than or equal to define constraint")
    case INTERNAL_PARAMETER_GT_VALIDATION_ERROR => MessageCode("APPE-internal-request-validation-error", "value must be greater than defined constraint")
    case INTERNAL_PARAMETER_INFINITY_ERROR => MessageCode("APPE-internal-request-validation-error", "value cannot be infinity")
    case INTERNAL_PARAMETER_INVALID_GEOJSON => MessageCode("APPE-internal-request-validation-error", "invalid GeoJSON object")
    case INTERNAL_PARAMETER_INVALID_IMAGE => MessageCode("APPE-internal-request-validation-error", "invalid image")
    case INTERNAL_PARAMETER_INVALID_IMAGE_DIMENSION => MessageCode("APPE-internal-request-validation-error", "invalid image dimension")
    case INTERNAL_PARAMETER_INVALID_IMAGE_FORMAT => MessageCode("APPE-internal-request-validation-error", "invalid image format")
    case INTERNAL_PARAMETER_INVALID_IMAGE_HEIGHT => MessageCode("APPE-internal-request-validation-error", "invalid image height")
    case INTERNAL_PARAMETER_INVALID_IMAGE_SIZE => MessageCode("APPE-internal-request-validation-error", "invalid image size")
    case INTERNAL_PARAMETER_INVALID_IMAGE_SIZE_FORMAT => MessageCode("APPE-internal-request-validation-error", "invalid size format")
    case INTERNAL_PARAMETER_INVALID_IMAGE_WIDTH => MessageCode("APPE-internal-request-validation-error", "invalid image width")
    case INTERNAL_PARAMETER_LEQ_VALIDATION_ERROR => MessageCode("APPE-internal-request-validation-error", "value must be less than or equal to defined constraint")
    case INTERNAL_PARAMETER_LT_VALIDATION_ERROR => MessageCode("APPE-internal-request-validation-error", "value must be less than defined constraint")
    case INTERNAL_PARAMETER_MISSING_RADIUS_ERROR => MessageCode("APPE-internal-request-validation-error", "missing radius parameter")
    case INTERNAL_PARAMETER_NAN_ERROR => MessageCode("APPE-internal-request-validation-error", "value cannot be nan")
    case INTERNAL_PARAMETER_SCHEMA_VALIDATION_ERROR => MessageCode("APPE-internal-bundle-io-schema-validation-error", "")
    case INTERNAL_PARAMETER_TYPE_ERROR => MessageCode("APPE-internal-request-validation-error", "invalid parameter type")
    case INTERNAL_PARAMETER_UNSUPPORTED_GEOMETRY_SUBTYPE => MessageCode("APPE-internal-request-validation-error", "unsupported geometry subtype")
    case INTERNAL_PARAMETER_UNSUPPORTED_GEOMETRY_TYPE => MessageCode("APPE-internal-request-validation-error", "unsupported geometry type")
    case INTERNAL_PARAMETER_VALIDATION_ERROR => MessageCode("APPE-internal-request-validation-error", "value does not match defined constraint.")
    case INTERNAL_PROVISIONS_NOT_FOUND => MessageCode("APPE-internal-task-run-provisions-not-found", "provisions not found")
    case INTERNAL_SCHEMA_VALIDATION_ERROR => MessageCode("APPE-internal-bundle-schema-validation-error", "Schema validation failed for the descriptor file")
    case INTERNAL_SERVER_ERROR => MessageCode("APPE-internal-server-error", "Server error.")
    case INTERNAL_UNKNOWN_BUNDLE_ARCHIVE_FORAMT => MessageCode("APPE-internal-bundle-validation-error", "unknown task bundle archive format")
    case INTERNAL_UNKNOWN_IMAGE_ARCHIVE_FORMAT => MessageCode("APPE-internal-image-validation-error", "unknown image archive format")
    case INTERNAL_UNKNOWN_OUTPUT => MessageCode("APPE-internal-task-run-unknown-output", "unexpected output, did not match an actual task output")
    case INTERNAL_TASK_EXISTS => MessageCode("APPE-internal-task-exists", "Task already exists.")
    case INTERNAL_TASK_NOT_FOUND => MessageCode("APPE-internal-task-not-found", "Task not found.")
    case REGISTRY_PUSHING_TASK_IMAGE_FAILED => MessageCode("APPE-registry-push-failed", "pushing task image to registry failed in registry")
    case RUN_NOT_FOUND => MessageCode("APPE-internal-run-not-found-error", "Run not found.")
    case STORAGE_CREATING_STORAGE_FAILED => MessageCode("APPE-storage-storage-creation-error", "creating storage failed in storage service")
    case STORAGE_READING_FILE_FAILED => MessageCode("APPE-storage-reading-file-error", "failed to read file from storage service")
    case STORAGE_STORING_INPUT_FAILED => MessageCode("APPE-storage-storing-input-failed", "failed to store input file in storage service")
    case STORAGE_STORING_TASK_DEFINITION_FAILED => MessageCode("APPE-storage-definition-storage-error", "storing task definition failed in storage service")
    case UNKNOWN_STATE => MessageCode("APPE-internal-task-run-state-error", "unknown state in transition request")
    case SCHEDULER_UNAUTHENTICATED_OUTPUT_PROVISIONING => MessageCode("APPE-scheduler-unauthenticated-output-provisioning", "unauthenticated task failed to provision outputs for this run")
    case INTERNAL_MISSING_OUTPUT_FILE_FOR_PARAMETER => MessageCode("APPE-internal-missing-output-files", "file structure for primitive parameter is missing")
    case INTERNAL_OUTPUT_FILE_FOR_PARAMETER_IS_DIRECTORY => MessageCode("APPE-internal-is-directory", "file structure for primitive parameter is a directory")
    case INTERNAL_EXTRA_OUTPUT_FILES_FOR_PARAMETER => MessageCode("APPE-internal-extra-output-files", "file structure for parameter contains extra files")
    case INTERNAL_OUTPUT_FILE_FOR_PARAMETER_IS_BLANK => MessageCode("APPE-internal-is-blank", "file for parameter is blank")
    case INTERNAL_INVALID_INDEXES_PATTERN => MessageCode("APPE-internal-invalid-indexes", "indexes don't match pattern {^(0(/[0-9]+)*|[1-9][0-9]*(/[0-9]+)*)$}")
    case INTERNAL_NOT_MATCHING_DIFF_SIZE => MessageCode("APPE-internal-not-matching", "collections don't have the same size")
    case INTERNAL_MISSING_METADATA => MessageCode("APPE-internal-missing-metadata", "collection does not have array.yml file")
    case INTERNAL_INVALID_FEATURE_COLLECTION => MessageCode("APPE-internal-invalid-collection", "invalid feature collection")
    case INTERNAL_WRONG_PROVISION_STRUCTURE => MessageCode("APPE-internal-invalid-structure", "invalid provision structure")
    case INTERNAL_INVALID_COLLECTION_DIMENSIONS => MessageCode("APPE-internal-invalid-dimensions", "invalid collection dimensions")
    case INTERNAL_UNKNOWN_PARAMETER => MessageCode("APPE-internal-unknown", "unknown parameter")
    case INTERNAL_NULL_PROVISION => MessageCode("APPE-internal-null-provision", "provision object is null")
    case INTERNAL_UNKNOWN_SUBTYPE => MessageCode("APPE-internal-unknown-subtype", "collection subtype unknown")
    case INTERNAL_INVALID_METADATA => MessageCode("APPE-internal-invalid-metadata", "collection array.yml is malformed")
    case INTERNAL_INVALID_STORE_DATA => MessageCode("APPE-internal-invalid-store-data", "invalid store data")
    case INTERNAL_INVALID_STORE_NOT_FOUND => MessageCode("APPE-internal-store", "store not found")
    case INTERNAL_INVALID_STORE_ALREADY_EXISTS => MessageCode("APPE-internal-store-exists", "store already exists")
    case INTERNAL_NOT_MULTIPART => MessageCode("APPE-internal-not-multipart", "payload is not multipart")
    case INTERNAL_NO_FILE_PARTS_FOUND => MessageCode("APPE-internal-no-file-parts", "payload does not contain file parts")
    case INTERNAL_NO_FILE_BUT_FORM_FIELD => MessageCode("APPE-internal-no-file-but-form-field", "payload does not contain file but form field")
    case INTERNAL_CRC32_CALC_FAILED => MessageCode("APPE-internal-checksum-failure", "failed to calculate CRC32 checksum for zip entries")
    case APPSTORE_DOWNLOAD_FAILED => MessageCode("APPE-appstore-download-failure", "failed to download task/app from configured appstore")
    case APPSTORE_NO_DEFAULT_STORE => MessageCode("APPE-appstore-no-default", "no default store is configured")
    case INTERNAL_LOGO_NOT_FOUND => MessageCode("APPE-internal-logo-not-found", "no logo found in storage")
    case _ => assert false; MessageCode("", "")
  }

  /** `ErrorDefinitions.fromCode`: the registered pair, or UndefinedCodeException. */
  function FromCode(c: ErrorCode): (r: Result<MessageCode, UndefinedCode>)
    ensures r.Failure? <==> Unregistered(c)
    ensures r.Failure? ==> r.error == UndefinedCode(c)
    ensures r.Success? ==> Table(c) == Some(r.value)
  {
    match Table(c)
    case Some(m) => Success(m)
    case None => Failure(UndefinedCode(c))
  }

  /** An error tied to one parameter (`ErrorBuilder.build(code, new ParameterError(name))`). */
  datatype ParameterError = ParameterError(code: ErrorCode, parameter: string)
}
