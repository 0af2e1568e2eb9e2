/** Environment variables of containers. */
module EnvVars {
  import opened Options

  /** A variable; `source` is a reference its value is taken from, to a Secret say. */
  datatype EnvVar = EnvVar(name: string, value: string, source: Option<string>)
}
