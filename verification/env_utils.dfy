/** `clean_git_env`: the environment handed to git with the variables that
    would redirect it to another repository removed. The process environment
    is taken as a value; the function works on a copy, so the input is never
    changed. */
module EnvUtils {

  type Env = map<string, string>

  /** The variables removed, in the order they are popped. */
  const GitEnvVars: seq<string> := [
    "GIT_DIR", "GIT_WORK_TREE", "GIT_INDEX_FILE", "GIT_OBJECT_DIRECTORY",
    "GIT_ALTERNATE_OBJECT_DIRECTORIES", "GIT_COMMON_DIR", "GIT_CEILING_DIRECTORIES",
    "GIT_DISCOVERY_ACROSS_FILESYSTEM", "GIT_NO_DISCOVERY", "GIT_TEMPLATE_DIR", "GIT_CONFIG"]

  /** `env.pop(var, None)` for each variable in turn: a missing variable is
      skipped. The result keeps exactly the entries of `env` whose key is not
      one of `vars`. */
  function PopAll(env: Env, vars: seq<string>): (r: Env)
    ensures forall k :: k in r <==> k in env && k !in vars
    ensures forall k :: k in r ==> r[k] == env[k]
    decreases |vars|
  {
    if vars == [] then env
    else
      var rest := PopAll(env - {vars[0]}, vars[1..]);
      assert forall k :: k in vars <==> k == vars[0] || k in vars[1..];
      rest
  }

  /** `clean_git_env()` applied to the environment `env`. */
  function CleanGitEnv(env: Env): (r: Env)
  {
    PopAll(env, GitEnvVars)
  }

  /** None of the eleven variables is left. */
  lemma CleanRemovesGitVars(env: Env)
    ensures |GitEnvVars| == 11
    ensures forall v :: v in GitEnvVars ==> v !in CleanGitEnv(env)
  {
  }

  /** Every other variable is kept with its value. */
  lemma CleanKeepsOthers(env: Env, k: string)
    requires k in env && k !in GitEnvVars
    ensures k in CleanGitEnv(env) && CleanGitEnv(env)[k] == env[k]
  {
  }

  /** The cleaned environment is the input with the variables' keys taken
      away, as one map difference. */
  lemma CleanIsDifference(env: Env)
    ensures CleanGitEnv(env) == env - (set v | v in GitEnvVars)
    ensures CleanGitEnv(env).Keys == env.Keys - (set v | v in GitEnvVars)
  {
    PopAllDifference(env, GitEnvVars);
  }

  /** Popping a missing key does nothing, so cleaning twice is cleaning once. */
  lemma CleanIdempotent(env: Env)
    ensures CleanGitEnv(CleanGitEnv(env)) == CleanGitEnv(env)
  {
    PopAllUnaffected(PopAll(env, GitEnvVars), GitEnvVars);
  }

  /** An environment without any of the variables passes unchanged. */
  lemma CleanUnaffected(env: Env)
    requires forall v :: v in GitEnvVars ==> v !in env
    ensures CleanGitEnv(env) == env
  {
    PopAllUnaffected(env, GitEnvVars);
  }

  lemma PopAllDifference(env: Env, vars: seq<string>)
    ensures PopAll(env, vars) == env - (set v | v in vars)
  {
    var r := PopAll(env, vars);
    var d := env - (set v | v in vars);
    assert forall k :: k in r <==> k in d;
    assert forall k :: k in r ==> r[k] == d[k];
    SameEntries(r, d);
  }

  lemma PopAllUnaffected(env: Env, vars: seq<string>)
    requires forall v :: v in vars ==> v !in env
    ensures PopAll(env, vars) == env
  {
    SameEntries(PopAll(env, vars), env);
  }

  /** Two maps with the same keys and the same value at each key are equal. */
  lemma SameEntries(a: Env, b: Env)
    requires forall k :: k in a <==> k in b
    requires forall k :: k in a ==> a[k] == b[k]
    ensures a == b
  {
  }
}
