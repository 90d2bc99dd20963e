/**
 * The configuration values the text-processing functions read from the
 * process-wide settings object, passed explicitly instead.
 */
module Settings {

  datatype Config = Config(
    maxChunkLength: int,            // default limit of the legacy splitter
    longTextChunkSize: int,         // default chunk length for long-text generation
    maxTotalLength: int,            // absolute limit on a synthesis request
    longTextChunkingStrategy: string,
    longTextMinLength: int,
    longTextMaxLength: int)
  {
    /** Deployed configurations have a positive long-text chunk size; every
        chunker falls back to it, and a limit of 0 would never finish. */
    predicate Valid() {
      longTextChunkSize >= 1
    }
  }
}
