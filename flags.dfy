/** The exporter's command-line flags, passed as one value instead of globals. */
module Flags {

  import opened Int64

  /** `apiHost`, `willStop`, `apiToken` and `waitHour` as declared in the source.
      `willStop` is carried but, as in the source, nothing reads it. */
  datatype Config = Config(apiHost: string, willStop: bool, apiToken: string, waitHour: int64)

  /** The flags' default values. */
  const Defaults: Config := Config("https://localhost/hub/api", true, "", 24)
}
