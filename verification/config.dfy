/** The server configuration shared by both endpoints. */
module Config {
  import opened Wrappers

  /** `!process.env.NAME`: the variable is unset or empty. */
  predicate Missing(v: Option<string>) {
    v.None? || v.value == ""
  }
}
