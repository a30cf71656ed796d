/** The configuration read from ~/.warrant.json (internal/config/config.go) and
    the checks internal/cmd/root.go applies to it before any command runs. */
module Configuration {
  import opened Wrappers

  /** config.Environment: the credentials of one environment. */
  datatype Environment = Environment(apiKey: string, apiEndpoint: string)

  const NoActiveEnvironment := "no active environment configured. Run 'warrant init'"
  const NoEnvironments := "no environments configured. Run 'warrant init'"
  const InvalidActiveEnvironment := "invalid active environment configured. Run 'warrant init'"

  /** config.Config: the shared configuration the `env` commands change in place. */
  class Config {
    var activeEnvironment: string
    var environments: map<string, Environment>

    constructor (activeEnvironment: string, environments: map<string, Environment>)
      ensures this.activeEnvironment == activeEnvironment
      ensures this.environments == environments
    {
      this.activeEnvironment := activeEnvironment;
      this.environments := environments;
    }

    /** A usable configuration: a named active environment that is configured. */
    predicate Valid()
      reads this
    {
      activeEnvironment != "" && activeEnvironment in environments
    }

    /** The invariant the `env` commands keep: the active name is a configured one. */
    predicate ActiveIsKey()
      reads this
    {
      activeEnvironment in environments
    }

    /** GetConfigOrExit: no error exactly for a valid configuration. The checks
        run in order, so an empty active name is reported first even when no
        environment is configured, and "no environments" comes before "invalid
        active environment". */
    function ConfigError(): (e: Option<string>)
      reads this
      ensures e.None? <==> Valid()
      ensures activeEnvironment == "" ==> e == Some(NoActiveEnvironment)
      ensures activeEnvironment != "" && |environments| == 0 ==> e == Some(NoEnvironments)
      ensures activeEnvironment != "" && |environments| != 0 && activeEnvironment !in environments
              ==> e == Some(InvalidActiveEnvironment)
    {
      if activeEnvironment == "" then Some(NoActiveEnvironment)
      else if |environments| == 0 then Some(NoEnvironments)
      else if activeEnvironment !in environments then Some(InvalidActiveEnvironment)
      else None
    }

    /** The credentials initConfig installs: the active environment's entry, or
        Go's zero value (empty key and endpoint) when there is no such entry. */
    function ActiveCredentials(): (env: Environment)
      reads this
      ensures activeEnvironment in environments ==> env == environments[activeEnvironment]
      ensures activeEnvironment !in environments ==> env == Environment("", "")
      ensures Valid() ==> env in environments.Values
    {
      if activeEnvironment in environments then environments[activeEnvironment]
      else Environment("", "")
    }
  }

  /** The SDK's package-level settings (warrant.ApiKey, warrant.ApiEndpoint). */
  class ClientSettings {
    var apiKey: string
    var apiEndpoint: string

    constructor ()
      ensures apiKey == "" && apiEndpoint == ""
    {
      apiKey, apiEndpoint := "", "";
    }
  }

  /** initConfig: installs the loaded configuration's active credentials in the
      SDK settings and leaves the configuration itself as it was. */
  method InitConfig(loaded: Config, client: ClientSettings)
    modifies client
    ensures client.apiKey == loaded.ActiveCredentials().apiKey
    ensures client.apiEndpoint == loaded.ActiveCredentials().apiEndpoint
    ensures loaded.Valid() ==>
      Environment(client.apiKey, client.apiEndpoint) == loaded.environments[loaded.activeEnvironment]
  {
    client.apiKey := loaded.ActiveCredentials().apiKey;
    client.apiEndpoint := loaded.ActiveCredentials().apiEndpoint;
  }
}
