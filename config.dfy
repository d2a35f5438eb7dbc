/** The process environment both handlers consult before touching the blob store. */
module Config {
  import opened Py

  /** Whether the blob client library imported (`HAS_BLOB`) and the value of
      `BLOB_READ_WRITE_TOKEN`, if set. */
  datatype Env = Env(hasBlob: bool, token: Option<string>) {
    /** `HAS_BLOB and os.environ.get("BLOB_READ_WRITE_TOKEN")` is truthy: an
        unset and an empty token both leave the store unconfigured. */
    predicate Configured() {
      hasBlob && token.Some? && token.value != ""
    }
  }
}
