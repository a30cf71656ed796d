/** internal/cmd/env.go: `env [--list]`, `env add`, `env remove` and
    `env switch`, as changes to the shared configuration. Each command first
    applies GetConfigOrExit; an exit leaves the configuration untouched. */
module EnvCmd {
  import opened Wrappers
  import opened GoSort
  import opened Configuration

  /** How a command that changes the configuration ends: normally, or through
      PrintErrAndExit with its message. */
  datatype Outcome = Done | Exited(msg: string)

  /** `env add`: inserts or overwrites the named environment (read from the
      console, so a parameter here) and keeps the active environment. */
  method AddEnv(config: Config, name: string, env: Environment) returns (out: Outcome)
    modifies config
    ensures old(config.ConfigError()).Some? ==>
      out == Exited(old(config.ConfigError()).value) && unchanged(config)
    ensures old(config.Valid()) ==>
      && out == Done
      && config.environments == old(config.environments)[name := env]
      && config.activeEnvironment == old(config.activeEnvironment)
    ensures old(config.ActiveIsKey()) ==> config.ActiveIsKey()
    ensures old(config.Valid()) ==> config.Valid()
  {
    var err := config.ConfigError();
    if err.Some? {
      return Exited(err.value);
    }
    config.environments := config.environments[name := env];
    out := Done;
  }

  /** `env remove <name>`: refuses the active environment, then a name that is
      not configured; otherwise deletes exactly that entry. */
  method RemoveEnv(config: Config, name: string) returns (out: Outcome)
    modifies config
    ensures old(config.ConfigError()).Some? ==>
      out == Exited(old(config.ConfigError()).value) && unchanged(config)
    ensures old(config.Valid()) && name == old(config.activeEnvironment) ==>
      out == Exited("cannot remove active environment") && unchanged(config)
    ensures old(config.Valid()) && name != old(config.activeEnvironment) && name !in old(config.environments) ==>
      out == Exited("environment '" + name + "' does not exist") && unchanged(config)
    ensures out == Done <==>
      old(config.Valid()) && name != old(config.activeEnvironment) && name in old(config.environments)
    ensures out == Done ==>
      && config.environments == old(config.environments) - {name}
      && config.activeEnvironment == old(config.activeEnvironment)
    ensures old(config.ActiveIsKey()) ==> config.ActiveIsKey()
    ensures old(config.Valid()) ==> config.Valid()
  {
    var err := config.ConfigError();
    if err.Some? {
      return Exited(err.value);
    }
    if name == config.activeEnvironment {
      return Exited("cannot remove active environment");
    }
    if name !in config.environments {
      return Exited("environment '" + name + "' does not exist");
    }
    config.environments := config.environments - {name};
    out := Done;
  }

  /** `env switch <name>`: makes a configured environment the active one and
      refuses any other name without changing anything. The active name stays
      a configured one; the configuration stays valid for GetConfigOrExit only
      if the new name is not empty, since an environment named "" can be
      configured and switched to. */
  method SwitchEnv(config: Config, name: string) returns (out: Outcome)
    modifies config
    ensures old(config.ConfigError()).Some? ==>
      out == Exited(old(config.ConfigError()).value) && unchanged(config)
    ensures old(config.Valid()) && name !in old(config.environments) ==>
      out == Exited("environment '" + name + "' does not exist") && unchanged(config)
    ensures out == Done <==> old(config.Valid()) && name in old(config.environments)
    ensures out == Done ==>
      && config.activeEnvironment == name
      && config.environments == old(config.environments)
    ensures old(config.ActiveIsKey()) ==> config.ActiveIsKey()
    ensures old(config.Valid()) && name != "" ==> config.Valid()
  {
    var err := config.ConfigError();
    if err.Some? {
      return Exited(err.value);
    }
    if name !in config.environments {
      return Exited("environment '" + name + "' does not exist");
    }
    config.activeEnvironment := name;
    out := Done;
  }

  /** One line of `env --list`: the active environment marked with "* ", the
      others indented by two spaces (the bold styling is not modelled). */
  function EnvLine(name: string, active: string): string
  {
    if name == active then "* " + name else "  " + name
  }

  function Listing(names: seq<string>, active: string): (lines: seq<string>)
  {
    seq(|names|, i requires 0 <= i < |names| => EnvLine(names[i], active))
  }

  /** The `range` loop over the environments: every configured name once, in
      an order the model leaves open, as Go leaves it. */
  method CollectNames(environments: map<string, Environment>) returns (envs: seq<string>)
    ensures multiset(envs) == multiset(environments.Keys)
  {
    envs := [];
    var remaining := environments.Keys;
    while remaining != {}
      invariant remaining <= environments.Keys
      invariant multiset(envs) + multiset(remaining) == multiset(environments.Keys)
      decreases remaining
    {
      var k :| k in remaining;
      envs := envs + [k];
      assert remaining == (remaining - {k}) + {k};
      remaining := remaining - {k};
    }
  }

  /** The printing loop of `env --list`. */
  method MarkNames(envs: seq<string>, active: string) returns (lines: seq<string>)
    ensures lines == Listing(envs, active)
  {
    lines := [];
    for i := 0 to |envs|
      invariant |lines| == i
      invariant forall j :: 0 <= j < i ==> lines[j] == EnvLine(envs[j], active)
    {
      if envs[i] == active {
        lines := lines + ["* " + envs[i]];
      } else {
        lines := lines + ["  " + envs[i]];
      }
    }
  }

  /** `env [--list]`: the active name alone, unless listing more (or fewer) than
      one environment, when every configured name appears once, in ascending
      order, marked or indented. */
  method ShowEnvs(config: Config, list: bool) returns (out: Result<seq<string>>)
    ensures config.ConfigError().Some? ==> out == Err(config.ConfigError().value)
    ensures config.Valid() && (!list || |config.environments| == 1) ==> out == Ok([config.activeEnvironment])
    ensures config.Valid() && list && |config.environments| != 1 ==>
      out == Ok(Listing(AscendingKeys(config.environments.Keys), config.activeEnvironment))
  {
    var err := config.ConfigError();
    if err.Some? {
      return Err(err.value);
    }
    if !list || |config.environments| == 1 {
      return Ok([config.activeEnvironment]);
    }
    var envs := CollectNames(config.environments);
    AscendingKeysSpec(config.environments.Keys, envs);
    envs := SortStrings(envs);
    var lines := MarkNames(envs, config.activeEnvironment);
    return Ok(lines);
  }

  /** Every configured name has its own line in the listing. */
  lemma ListingCoversNames(keys: set<string>, active: string)
    ensures var names := AscendingKeys(keys);
      && |Listing(names, active)| == |keys|
      && (forall k :: k in keys ==> exists i :: 0 <= i < |names| && names[i] == k)
      && (forall i, j :: 0 <= i < j < |names| ==> names[i] != names[j])
  {
    var names := AscendingKeys(keys);
    AscendingKeysSpec(keys, Enumerate(keys));
    forall i, j | 0 <= i < j < |names| ensures names[i] != names[j] {
      LessIrreflexive(names[i]);
    }
  }

  /** In a listing whose active name is configured, exactly the active
      environment's line is marked. */
  lemma ListingMarksActiveOnly(keys: set<string>, active: string)
    requires active in keys
    ensures var lines := Listing(AscendingKeys(keys), active);
      && (exists i :: 0 <= i < |lines| && lines[i] == "* " + active)
      && (forall i :: 0 <= i < |lines| ==> (lines[i][..2] == "* " <==> AscendingKeys(keys)[i] == active))
  {
    var names := AscendingKeys(keys);
    AscendingKeysSpec(keys, Enumerate(keys));
    var lines := Listing(names, active);
    var a :| 0 <= a < |names| && names[a] == active;
    assert lines[a] == "* " + active;
    forall i | 0 <= i < |lines| ensures lines[i][..2] == (if names[i] == active then "* " else "  ") {
    }
    assert "* " != "  " by { assert "* "[0] != "  "[0]; }
  }
}
